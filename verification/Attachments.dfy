/** Attachments: a file becomes a forest of encrypted fragments, and the forest becomes the file again. */
module Attachments {
  import opened Common

  const CHUNK_SIZE: nat := 131072
  const MAX_FANOUT: nat := 512
  const U64_MAX: nat := 0xFFFF_FFFF_FFFF_FFFF

  datatype Nonce = Nonce(id: nat)
  datatype Key = Key(id: nat)

  datatype Aead = Aead(encrypt: (Key, Nonce, Bytes) -> Bytes, decrypt: (Key, Nonce, Bytes) -> Option<Bytes>) {
    ghost predicate Correct() {
      forall k: Key, n: Nonce, p: Bytes :: decrypt(k, n, encrypt(k, n, p)) == Some(p)
    }
  }

  /** Fragment hashes as free constructors: equal digests mean equal fragments. `Other` is no fragment's digest. */
  datatype Hash = OfFragment(fragment: Fragment) | Other(id: nat)
  datatype Child = Child(hash: Hash, size: nat)
  datatype Fragment = Node(children: seq<Child>) | Leaf(nonce: Nonce, data: Bytes)
  datatype Attachment = Attachment(children: seq<Child>, key: Key)

  /** The server's fragment store. */
  type Store = map<Hash, Fragment>

  ghost predicate Addressed(store: Store) {
    forall h | h in store :: h == OfFragment(store[h])
  }

  function Put(store: Store, f: Fragment): Store { store[OfFragment(f) := f] }

  function TotalSize(children: seq<Child>): nat {
    if children == [] then 0 else children[0].size + TotalSize(children[1..])
  }

  function Min(a: nat, b: nat): nat { if a < b then a else b }

  function SaturatingAdd(a: nat, b: nat): nat { Min(a + b, U64_MAX) }

  // ---------- What a forest stands for ----------

  function Content(aead: Aead, key: Key, c: Child): Option<Bytes>
    decreases c
  {
    match c.hash
    case Other(_) => None
    case OfFragment(Leaf(nonce, data)) => aead.decrypt(key, nonce, data)
    case OfFragment(Node(children)) => Contents(aead, key, children)
  }

  function Contents(aead: Aead, key: Key, children: seq<Child>): Option<Bytes>
    decreases children
  {
    if children == [] then Some([])
    else match (Content(aead, key, children[0]), Contents(aead, key, children[1..]))
      case (Some(a), Some(b)) => Some(a + b)
      case _ => None
  }

  /** The child and all below it are stored, every node has 1 to 512 children, and every declared size is the true
      one. */
  ghost predicate Sound(aead: Aead, key: Key, store: Store, c: Child)
    decreases c
  {
    && c.hash.OfFragment? && c.hash in store
    && match c.hash.fragment
       case Leaf(nonce, data) =>
         var plain := aead.decrypt(key, nonce, data);
         plain.Some? && |plain.value| == c.size
       case Node(children) =>
         && 1 <= |children| <= MAX_FANOUT && TotalSize(children) == c.size
         && forall i | 0 <= i < |children| :: Sound(aead, key, store, children[i])
  }

  ghost predicate AllSound(aead: Aead, key: Key, store: Store, children: seq<Child>) {
    forall i | 0 <= i < |children| :: Sound(aead, key, store, children[i])
  }

  lemma {:induction false} SoundHasContent(aead: Aead, key: Key, store: Store, c: Child)
    requires Sound(aead, key, store, c)
    ensures Content(aead, key, c).Some? && |Content(aead, key, c).value| == c.size
    decreases c
  {
    if c.hash.fragment.Node? {
      AllSoundHaveContents(aead, key, store, c.hash.fragment.children);
    }
  }

  lemma {:induction false} AllSoundHaveContents(aead: Aead, key: Key, store: Store, children: seq<Child>)
    requires AllSound(aead, key, store, children)
    ensures Contents(aead, key, children).Some? && |Contents(aead, key, children).value| == TotalSize(children)
    decreases children
  {
    if children != [] {
      SoundHasContent(aead, key, store, children[0]);
      AllSoundHaveContents(aead, key, store, children[1..]);
    }
  }

  lemma {:induction false} SoundInLargerStore(aead: Aead, key: Key, store: Store, more: Store, c: Child)
    requires Sound(aead, key, store, c) && store.Keys <= more.Keys
    ensures Sound(aead, key, more, c)
    decreases c
  {
    if c.hash.fragment.Node? {
      var children := c.hash.fragment.children;
      forall i | 0 <= i < |children| ensures Sound(aead, key, more, children[i]) {
        SoundInLargerStore(aead, key, store, more, children[i]);
      }
    }
  }

  lemma {:induction false} TotalSizeConcat(a: seq<Child>, b: seq<Child>)
    ensures TotalSize(a + b) == TotalSize(a) + TotalSize(b)
  {
    if a == [] {
      assert a + b == b;
    } else {
      assert (a + b)[1..] == a[1..] + b;
      TotalSizeConcat(a[1..], b);
    }
  }

  lemma {:induction false} ContentsConcat(aead: Aead, key: Key, a: seq<Child>, b: seq<Child>)
    requires Contents(aead, key, a).Some? && Contents(aead, key, b).Some?
    ensures Contents(aead, key, a + b) == Some(Contents(aead, key, a).value + Contents(aead, key, b).value)
  {
    if a == [] {
      assert a + b == b && [] + Contents(aead, key, b).value == Contents(aead, key, b).value;
    } else {
      assert (a + b)[1..] == a[1..] + b;
      ContentsConcat(aead, key, a[1..], b);
      var head, tail := Content(aead, key, a[0]).value, Contents(aead, key, a[1..]).value;
      assert head + (tail + Contents(aead, key, b).value) == (head + tail) + Contents(aead, key, b).value;
    }
  }

  // ---------- Building levels ----------

  /** The nodes over one level: consecutive groups of at most 512 children. */
  function Groups(level: seq<Child>): (r: seq<Fragment>)
    ensures |r| == (|level| + 511) / 512
    ensures forall f | f in r :: f.Node? && 1 <= |f.children| <= 512
  {
    if level == [] then [] else
      var n := Min(MAX_FANOUT, |level|);
      [Node(level[..n])] + Groups(level[n..])
  }

  function NodeChild(f: Fragment): Child
    requires f.Node?
  {
    Child(OfFragment(f), TotalSize(f.children))
  }

  function Up(level: seq<Child>): (r: seq<Child>)
    ensures |r| == (|level| + 511) / 512
  {
    var groups := Groups(level);
    seq(|groups|, i requires 0 <= i < |groups| => NodeChild(groups[i]))
  }

  function Top(level: seq<Child>): (r: seq<Child>)
    ensures |r| <= 512
    decreases |level|
  {
    if |level| <= MAX_FANOUT then level else Top(Up(level))
  }

  /** All nodes built over a level, lowest first. */
  function NodesOver(level: seq<Child>): seq<Fragment>
    decreases |level|
  {
    if |level| <= MAX_FANOUT then [] else Groups(level) + NodesOver(Up(level))
  }

  lemma UpStep(level: seq<Child>)
    requires level != []
    ensures var n := Min(MAX_FANOUT, |level|);
            Up(level) == [NodeChild(Node(level[..n]))] + Up(level[n..])
  {
  }

  lemma NodeSound(aead: Aead, key: Key, store: Store, children: seq<Child>)
    requires AllSound(aead, key, store, children) && 1 <= |children| <= MAX_FANOUT
    requires OfFragment(Node(children)) in store
    ensures Sound(aead, key, store, NodeChild(Node(children)))
    ensures Content(aead, key, NodeChild(Node(children))) == Contents(aead, key, children)
  {
  }

  lemma {:induction false} UpKeepsMeaning(aead: Aead, key: Key, store: Store, level: seq<Child>)
    requires AllSound(aead, key, store, level)
    requires forall f | f in Groups(level) :: OfFragment(f) in store
    ensures AllSound(aead, key, store, Up(level))
    ensures Contents(aead, key, Up(level)) == Contents(aead, key, level)
    ensures TotalSize(Up(level)) == TotalSize(level)
    decreases |level|
  {
    if level != [] {
      var n := Min(MAX_FANOUT, |level|);
      var first, rest := level[..n], level[n..];
      assert level == first + rest;
      UpStep(level);
      UpKeepsMeaning(aead, key, store, rest);
      assert Node(first) in Groups(level);
      NodeSound(aead, key, store, first);
      AllSoundHaveContents(aead, key, store, first);
      AllSoundHaveContents(aead, key, store, rest);
      ContentsConcat(aead, key, first, rest);
      TotalSizeConcat(first, rest);
      assert ([NodeChild(Node(first))] + Up(rest))[1..] == Up(rest);
    }
  }

  lemma {:induction false} TopKeepsMeaning(aead: Aead, key: Key, store: Store, level: seq<Child>)
    requires AllSound(aead, key, store, level)
    requires forall f | f in NodesOver(level) :: OfFragment(f) in store
    ensures AllSound(aead, key, store, Top(level))
    ensures Contents(aead, key, Top(level)) == Contents(aead, key, level)
    ensures TotalSize(Top(level)) == TotalSize(level)
    decreases |level|
  {
    if |level| > MAX_FANOUT {
      UpKeepsMeaning(aead, key, store, level);
      TopKeepsMeaning(aead, key, store, Up(level));
    }
  }

  /** What is built so far and what `rest` will give make up the level. */
  ghost predicate Building(level: seq<Child>, rest: seq<Child>, next: seq<Child>, built: seq<Fragment>) {
    next + Up(rest) == Up(level) && built + Groups(rest) == Groups(level)
  }

  lemma BuildStart(level: seq<Child>)
    ensures Building(level, level, [], [])
  {
    assert [] + Up(level) == Up(level) && [] + Groups(level) == Groups(level);
  }

  lemma BuildEnd(level: seq<Child>, next: seq<Child>, built: seq<Fragment>)
    requires Building(level, [], next, built)
    ensures next == Up(level) && built == Groups(level)
  {
    assert next + [] == next && built + [] == built;
  }

  lemma BuildStep(level: seq<Child>, group: seq<Child>, after: seq<Child>, next: seq<Child>, built: seq<Fragment>)
    requires group != [] && group == (group + after)[..Min(MAX_FANOUT, |group + after|)]
    requires Building(level, group + after, next, built)
    ensures Building(level, after, next + [NodeChild(Node(group))], built + [Node(group)])
  {
    UpStep(group + after);
    assert (group + after)[|group|..] == after;
    var node := Node(group);
    assert next + ([NodeChild(node)] + Up(after)) == (next + [NodeChild(node)]) + Up(after);
    assert built + ([node] + Groups(after)) == (built + [node]) + Groups(after);
  }

  /** One level: a node for every group of 512 children, and the children that stand for the nodes. */
  method BuildLevel(level: seq<Child>) returns (next: seq<Child>, built: seq<Fragment>)
    ensures next == Up(level) && built == Groups(level)
  {
    next, built := [], [];
    var i := 0;
    assert level[0..] == level;
    BuildStart(level);
    while i < |level|
      invariant i <= |level|
      invariant Building(level, level[i..], next, built)
    {
      var end := Min(i + MAX_FANOUT, |level|);
      var node := Node(level[i..end]);
      assert level[i..] == level[i..end] + level[end..];
      BuildStep(level, level[i..end], level[end..], next, built);
      next := next + [NodeChild(node)];
      built := built + [node];
      i := end;
    }
    assert level[i..] == [];
    BuildEnd(level, next, built);
  }

  /** The level loop: groups of 512 until the level fits into the root. */
  method BuildLevels(leaves: seq<Child>) returns (top: seq<Child>, nodes: seq<Fragment>)
    ensures top == Top(leaves) && nodes == NodesOver(leaves)
  {
    top, nodes := leaves, [];
    while |top| > MAX_FANOUT
      invariant Top(top) == Top(leaves)
      invariant nodes + NodesOver(top) == NodesOver(leaves)
      decreases |top|
    {
      var next, built := BuildLevel(top);
      assert nodes + (built + NodesOver(next)) == (nodes + built) + NodesOver(next);
      top, nodes := next, nodes + built;
    }
  }

  // ---------- Uploading ----------

  function ChunkCount(size: nat): nat { (size + CHUNK_SIZE - 1) / CHUNK_SIZE }

  function Piece(file: Bytes, i: nat): (r: Bytes)
    requires i < ChunkCount(|file|)
    ensures 1 <= |r| <= CHUNK_SIZE
  {
    file[i * CHUNK_SIZE..Min(|file|, i * CHUNK_SIZE + CHUNK_SIZE)]
  }

  /** The inputs of one upload; `nonces` are the random nonces drawn for the chunks. */
  datatype Upload = Upload(aead: Aead, key: Key, file: Bytes, nonces: seq<Nonce>) {
    ghost predicate Valid() {
      |nonces| == ChunkCount(|file|) && |file| <= 0xFFFF_FFFF_FFFF_FFFF && aead.Correct()
    }

    function LeafAt(i: nat): Fragment
      requires i < ChunkCount(|file|) == |nonces|
    {
      Leaf(nonces[i], aead.encrypt(key, nonces[i], Piece(file, i)))
    }

    function LeafChild(i: nat): Child
      requires i < ChunkCount(|file|) == |nonces|
    {
      Child(OfFragment(LeafAt(i)), |Piece(file, i)|)
    }

    /** The leaf level in file order, from chunk `from` on. */
    function Leaves(from: nat): seq<Child>
      requires from <= ChunkCount(|file|) == |nonces|
      decreases |nonces| - from
    {
      if from == |nonces| then [] else [LeafChild(from)] + Leaves(from + 1)
    }
  }

  /** A finished chunk as the upload stream reports it. */
  datatype Finished = Finished(index: nat, child: Child)

  function Insert(s: seq<Finished>, f: Finished): (r: seq<Finished>)
    requires Ascending(s)
    requires forall g | g in s :: g.index != f.index
    ensures Ascending(r) && |r| == |s| + 1
    ensures forall g :: g in r <==> g == f || g in s
  {
    if s == [] || f.index < s[0].index then [f] + s
    else
      var rest := Insert(s[1..], f);
      assert forall g | g in rest :: s[0].index < g.index;
      assert s == [s[0]] + s[1..];
      [s[0]] + rest
  }

  ghost predicate Ascending(s: seq<Finished>) {
    forall i, j | 0 <= i < j < |s| :: s[i].index < s[j].index
  }

  ghost predicate DistinctIndices(s: seq<Finished>) {
    forall i, j | 0 <= i < j < |s| :: s[i].index != s[j].index
  }

  /** The sort by chunk index. */
  function SortByIndex(s: seq<Finished>): (r: seq<Finished>)
    requires DistinctIndices(s)
    ensures Ascending(r) && |r| == |s|
    ensures forall g :: g in r <==> g in s
  {
    if s == [] then [] else
      assert forall g | g in s[1..] :: g.index != s[0].index;
      Insert(SortByIndex(s[1..]), s[0])
  }

  /** Every index occurs once: a completion order of `n` concurrent transfers. */
  ghost predicate CompletionOrder(order: seq<nat>, n: nat) {
    && |order| == n
    && (forall i | 0 <= i < n :: order[i] < n)
    && forall i, j | 0 <= i < j < n :: order[i] != order[j]
  }

  lemma {:induction false} AscendingFloor(s: seq<Finished>, i: nat)
    requires Ascending(s) && i < |s|
    ensures s[i].index >= i
  {
    if i > 0 {
      AscendingFloor(s, i - 1);
      assert s[i - 1].index < s[i].index;
    }
  }

  lemma {:induction false} AscendingCeiling(s: seq<Finished>, i: nat)
    requires Ascending(s) && i < |s| && forall f | f in s :: f.index < |s|
    ensures s[i].index <= i
    decreases |s| - i
  {
    if i + 1 < |s| {
      AscendingCeiling(s, i + 1);
      assert s[i].index < s[i + 1].index;
    } else {
      assert s[i] in s;
    }
  }

  lemma {:induction false} LeavesAt(u: Upload, from: nat)
    requires u.Valid() && from <= |u.nonces|
    ensures |u.Leaves(from)| == |u.nonces| - from
    ensures forall i | from <= i < |u.nonces| :: u.Leaves(from)[i - from] == u.LeafChild(i)
    decreases |u.nonces| - from
  {
    if from < |u.nonces| {
      LeavesAt(u, from + 1);
      forall i | from < i < |u.nonces| ensures u.Leaves(from)[i - from] == u.LeafChild(i) {
        assert u.Leaves(from)[i - from] == u.Leaves(from + 1)[i - (from + 1)];
      }
    }
  }

  /** Every chunk but the last holds 131072 bytes, the last what is left, and each is sealed under its own nonce. */
  lemma LeavesAre(u: Upload, i: nat)
    requires u.Valid() && i < |u.nonces|
    ensures var leaf := u.LeafChild(i).hash.fragment;
            && leaf.Leaf? && leaf.nonce == u.nonces[i]
            && u.aead.decrypt(u.key, u.nonces[i], leaf.data).Some?
            && |u.aead.decrypt(u.key, u.nonces[i], leaf.data).value| == u.LeafChild(i).size
            && (i + 1 < |u.nonces| ==> u.LeafChild(i).size == 131072)
            && (i + 1 == |u.nonces| ==> u.LeafChild(i).size == |u.file| - i * 131072)
  {
  }

  /** Sorting undoes the completion order: the leaf level is in file order. */
  lemma SortRestoresFileOrder(u: Upload, results: seq<Finished>)
    requires u.Valid() && |results| == |u.nonces| && DistinctIndices(results)
    requires forall f | f in results :: f.index < |u.nonces| && f.child == u.LeafChild(f.index)
    ensures |SortByIndex(results)| == |u.nonces|
    ensures forall i | 0 <= i < |u.nonces| :: SortByIndex(results)[i] == Finished(i, u.LeafChild(i))
  {
    var sorted := SortByIndex(results);
    forall i | 0 <= i < |u.nonces| ensures sorted[i] == Finished(i, u.LeafChild(i)) {
      AscendingFloor(sorted, i);
      AscendingCeiling(sorted, i);
      assert sorted[i] in sorted;
    }
  }

  /** The concurrent leaf uploads, finishing in the given order. */
  method UploadLeaves(u: Upload, order: seq<nat>, store: Store) returns (store': Store, results: seq<Finished>)
    requires u.Valid() && CompletionOrder(order, |u.nonces|) && Addressed(store)
    ensures Addressed(store') && store.Keys <= store'.Keys
    ensures |results| == |order| && DistinctIndices(results)
    ensures forall f | f in results :: f.index < |u.nonces| && f.child == u.LeafChild(f.index) && f.child.hash in store'
  {
    store', results := store, [];
    for k := 0 to |order|
      invariant Addressed(store') && store.Keys <= store'.Keys
      invariant |results| == k && forall i | 0 <= i < k :: results[i] == Finished(order[i], u.LeafChild(order[i]))
      invariant forall i | 0 <= i < k :: u.LeafChild(order[i]).hash in store'
    {
      var index := order[k];
      var leaf := u.LeafAt(index);
      store' := Put(store', leaf);
      results := results + [Finished(index, Child(OfFragment(leaf), |Piece(u.file, index)|))];
    }
  }

  lemma SortedLevelIsLeaves(u: Upload, results: seq<Finished>, store: Store)
    requires u.Valid() && |results| == |u.nonces| && DistinctIndices(results)
    requires forall f | f in results :: f.index < |u.nonces| && f.child == u.LeafChild(f.index) && f.child.hash in store
    ensures var sorted := SortByIndex(results);
            seq(|sorted|, i requires 0 <= i < |sorted| => sorted[i].child) == u.Leaves(0)
    ensures forall i | 0 <= i < |u.nonces| :: u.LeafChild(i).hash in store
  {
    SortRestoresFileOrder(u, results);
    LeavesAt(u, 0);
    forall i | 0 <= i < |u.nonces| ensures u.LeafChild(i).hash in store {
      assert SortByIndex(results)[i] in results;
    }
  }

  method UploadNodes(nodes: seq<Fragment>, store: Store) returns (store': Store)
    requires Addressed(store)
    ensures Addressed(store') && store.Keys <= store'.Keys
    ensures forall f | f in nodes :: OfFragment(f) in store'
  {
    store' := store;
    for k := 0 to |nodes|
      invariant Addressed(store') && store.Keys <= store'.Keys
      invariant forall i | 0 <= i < k :: OfFragment(nodes[i]) in store'
    {
      store' := Put(store', nodes[k]);
    }
  }

  /** The upload: leaves in any completion order, the sort, the level loop, the node uploads. */
  method UploadFile(u: Upload, order: seq<nat>, store: Store) returns (store': Store, root: Attachment)
    requires u.Valid() && CompletionOrder(order, |u.nonces|) && Addressed(store)
    ensures root == Attachment(Top(u.Leaves(0)), u.key)
    ensures Addressed(store') && store.Keys <= store'.Keys
    ensures Stored(u, store')
  {
    var results;
    store', results := UploadLeaves(u, order, store);
    var sorted := SortByIndex(results);
    var level := seq(|sorted|, i requires 0 <= i < |sorted| => sorted[i].child);
    SortedLevelIsLeaves(u, results, store');
    var top, nodes := BuildLevels(level);
    store' := UploadNodes(nodes, store');
    root := Attachment(top, u.key);
  }

  /** Everything the upload produced is in the store. */
  ghost predicate Stored(u: Upload, store: Store)
    requires u.Valid()
  {
    && (forall i | 0 <= i < |u.nonces| :: u.LeafChild(i).hash in store)
    && (forall f | f in NodesOver(u.Leaves(0)) :: OfFragment(f) in store)
  }

  /** What a file holds from chunk `from` on is that chunk and what follows it. */
  lemma PieceThenRest(file: Bytes, from: nat)
    requires from < ChunkCount(|file|)
    ensures file[Min(|file|, from * CHUNK_SIZE)..] == Piece(file, from) + file[Min(|file|, (from + 1) * CHUNK_SIZE)..]
  {
    var start, end := from * CHUNK_SIZE, Min(|file|, from * CHUNK_SIZE + CHUNK_SIZE);
    assert end == Min(|file|, (from + 1) * CHUNK_SIZE) && start == Min(|file|, start);
    assert file[start..end] + file[end..] == file[start..];
  }

  lemma {:induction false} LeavesHoldFile(u: Upload, store: Store, from: nat)
    requires u.Valid() && Stored(u, store) && from <= |u.nonces|
    ensures AllSound(u.aead, u.key, store, u.Leaves(from))
    ensures Contents(u.aead, u.key, u.Leaves(from)) == Some(u.file[Min(|u.file|, from * CHUNK_SIZE)..])
    decreases |u.nonces| - from
  {
    if from < |u.nonces| {
      LeavesHoldFile(u, store, from + 1);
      PieceThenRest(u.file, from);
      var c := u.LeafChild(from);
      assert Content(u.aead, u.key, c) == Some(Piece(u.file, from));
      assert Sound(u.aead, u.key, store, c);
      assert u.Leaves(from) == [c] + u.Leaves(from + 1) && u.Leaves(from)[1..] == u.Leaves(from + 1);
    } else {
      assert u.file[Min(|u.file|, from * CHUNK_SIZE)..] == [];
    }
  }

  /** The uploaded forest means the file: the true bytes, and declared sizes that add up to its length. */
  lemma UploadedMeansFile(u: Upload, store: Store)
    requires u.Valid() && Stored(u, store)
    ensures AllSound(u.aead, u.key, store, Top(u.Leaves(0)))
    ensures Contents(u.aead, u.key, Top(u.Leaves(0))) == Some(u.file)
    ensures TotalSize(Top(u.Leaves(0))) == |u.file|
  {
    LeavesHoldFile(u, store, 0);
    TopKeepsMeaning(u.aead, u.key, store, u.Leaves(0));
    AllSoundHaveContents(u.aead, u.key, store, u.Leaves(0));
  }

  // ---------- Downloading ----------

  /** One write of a decrypted leaf into the file being assembled. */
  datatype Write = Write(offset: nat, data: Bytes)

  function TotalWritten(ws: seq<Write>): nat {
    if ws == [] then 0 else |ws[0].data| + TotalWritten(ws[1..])
  }

  function Zeros(n: nat): Bytes { seq(n, i => 0 as Byte) }

  /** A positioned write: past the end the gap is filled with zeros. */
  function Apply(file: Bytes, w: Write): (r: Bytes)
    ensures |r| == if w.offset + |w.data| > |file| && w.data != [] then w.offset + |w.data| else |file|
  {
    if w.data == [] then file else
      var padded := if |file| < w.offset then file + Zeros(w.offset - |file|) else file;
      padded[..w.offset] + w.data + (if w.offset + |w.data| < |padded| then padded[w.offset + |w.data|..] else [])
  }

  function ApplyAll(file: Bytes, ws: seq<Write>): Bytes
    decreases |ws|
  {
    if ws == [] then file else Apply(ApplyAll(file, ws[..|ws| - 1]), ws[|ws| - 1])
  }

  /** The writes a fragment's recursive download performs, up to the first failure, and whether it succeeds. */
  function Trace(aead: Aead, key: Key, store: Store, c: Child, offset: nat): (seq<Write>, bool)
    decreases c
  {
    if c.hash !in store || OfFragment(store[c.hash]) != c.hash then ([], false)
    else match c.hash.fragment
      case Node(children) => TraceAll(aead, key, store, children, offset)
      case Leaf(nonce, data) =>
        match aead.decrypt(key, nonce, data)
        case None => ([], false)
        case Some(plain) => ([Write(offset, plain)], true)
  }

  function TraceAll(aead: Aead, key: Key, store: Store, children: seq<Child>, offset: nat): (seq<Write>, bool)
    decreases children
  {
    if children == [] then ([], true)
    else
      var first := Trace(aead, key, store, children[0], offset);
      if !first.1 then first
      else
        var rest := TraceAll(aead, key, store, children[1..], SaturatingAdd(offset, children[0].size));
        (first.0 + rest.0, rest.1)
  }

  /** The child and all below it are served under their own hashes, and every leaf opens. */
  predicate Downloadable(aead: Aead, key: Key, store: Store, c: Child)
    decreases c
  {
    && c.hash in store && OfFragment(store[c.hash]) == c.hash
    && match c.hash.fragment
       case Leaf(nonce, data) => aead.decrypt(key, nonce, data).Some?
       case Node(children) => forall i | 0 <= i < |children| :: Downloadable(aead, key, store, children[i])
  }

  /** A download succeeds exactly if everything it needs is served, true to its hash, and opens. */
  lemma {:induction false} TraceSucceedsIff(aead: Aead, key: Key, store: Store, c: Child, offset: nat)
    ensures Trace(aead, key, store, c, offset).1 <==> Downloadable(aead, key, store, c)
    decreases c
  {
    if c.hash in store && OfFragment(store[c.hash]) == c.hash && c.hash.fragment.Node? {
      TracesSucceedIff(aead, key, store, c.hash.fragment.children, offset);
    }
  }

  lemma {:induction false} TracesSucceedIff(aead: Aead, key: Key, store: Store, children: seq<Child>, offset: nat)
    ensures TraceAll(aead, key, store, children, offset).1
            <==> forall i | 0 <= i < |children| :: Downloadable(aead, key, store, children[i])
    decreases children
  {
    if children != [] {
      TraceSucceedsIff(aead, key, store, children[0], offset);
      TracesSucceedIff(aead, key, store, children[1..], SaturatingAdd(offset, children[0].size));
      assert forall i | 0 < i < |children| :: children[i] == children[1..][i - 1];
    }
  }

  lemma {:induction false} ApplyAllConcat(file: Bytes, a: seq<Write>, b: seq<Write>)
    ensures ApplyAll(file, a + b) == ApplyAll(ApplyAll(file, a), b)
    decreases |b|
  {
    if b == [] {
      assert a + b == a;
    } else {
      assert (a + b)[..|a + b| - 1] == a + b[..|b| - 1];
      ApplyAllConcat(file, a, b[..|b| - 1]);
    }
  }

  lemma {:induction false} TotalWrittenConcat(a: seq<Write>, b: seq<Write>)
    ensures TotalWritten(a + b) == TotalWritten(a) + TotalWritten(b)
  {
    if a == [] {
      assert a + b == b;
    } else {
      assert (a + b)[1..] == a[1..] + b;
      TotalWrittenConcat(a[1..], b);
    }
  }

  /** After `done`, the download of `children` from `offset` on completes `whole`. */
  ghost predicate Remaining(aead: Aead, key: Key, store: Store, children: seq<Child>, offset: nat,
                            done: seq<Write>, whole: (seq<Write>, bool))
  {
    var rest := TraceAll(aead, key, store, children, offset);
    whole == (done + rest.0, rest.1)
  }

  lemma RemainingStep(aead: Aead, key: Key, store: Store, children: seq<Child>, i: nat, offset: nat,
                      done: seq<Write>, whole: (seq<Write>, bool))
    requires i < |children| && Remaining(aead, key, store, children[i..], offset, done, whole)
    ensures var step := Trace(aead, key, store, children[i], offset);
            if step.1
            then Remaining(aead, key, store, children[i + 1..], SaturatingAdd(offset, children[i].size), done + step.0,
                           whole)
            else whole == (done + step.0, false)
  {
    assert children[i..][0] == children[i] && children[i..][1..] == children[i + 1..];
    var step := Trace(aead, key, store, children[i], offset);
    var rest := TraceAll(aead, key, store, children[i + 1..], SaturatingAdd(offset, children[i].size));
    assert done + (step.0 + rest.0) == (done + step.0) + rest.0;
  }

  /** The partially downloaded file and the shared byte counter. */
  class Download {
    var contents: Bytes
    var downloaded: nat

    constructor (size: nat)
      ensures contents == Zeros(size) && downloaded == 0
    {
      contents, downloaded := Zeros(size), 0;
    }

    /** The recursive download of one child, with its running offset. */
    method DownloadFragment(aead: Aead, key: Key, store: Store, c: Child, start: nat) returns (ok: bool)
      modifies this
      ensures ok == Trace(aead, key, store, c, start).1
      ensures contents == ApplyAll(old(contents), Trace(aead, key, store, c, start).0)
      ensures downloaded == old(downloaded) + TotalWritten(Trace(aead, key, store, c, start).0)
      decreases c
    {
      if c.hash !in store {
        return false;
      }
      var fragment := store[c.hash];
      if OfFragment(fragment) != c.hash {
        return false;
      }
      match fragment {
        case Node(children) =>
          var offset := start;
          ghost var done: seq<Write> := [];
          ghost var whole := TraceAll(aead, key, store, children, start);
          assert children[0..] == children && [] + whole.0 == whole.0;
          for i := 0 to |children|
            invariant contents == ApplyAll(old(contents), done) && downloaded == old(downloaded) + TotalWritten(done)
            invariant Remaining(aead, key, store, children[i..], offset, done, whole)
          {
            ghost var step := Trace(aead, key, store, children[i], offset);
            RemainingStep(aead, key, store, children, i, offset, done, whole);
            ApplyAllConcat(old(contents), done, step.0);
            TotalWrittenConcat(done, step.0);
            var childOk := DownloadFragment(aead, key, store, children[i], offset);
            done := done + step.0;
            if !childOk {
              return false;
            }
            offset := SaturatingAdd(offset, children[i].size);
          }
          assert done + [] == done;
          return true;
        case Leaf(nonce, data) =>
          var plain := aead.decrypt(key, nonce, data);
          if plain.None? {
            return false;
          }
          var w := Write(start, plain.value);
          assert [w][..0] == [];
          contents := Apply(contents, w);
          downloaded := downloaded + |plain.value|;
          return true;
      }
    }
  }

  // ---------- Concurrent downloads in any interleaving ----------

  /** The start offset of each child of the root. */
  function ChildOffsets(children: seq<Child>, offset: nat): (r: seq<nat>)
    ensures |r| == |children|
  {
    if children == [] then [] else [offset] + ChildOffsets(children[1..], SaturatingAdd(offset, children[0].size))
  }

  /** `ws` interleaves the tasks, each in its own order. */
  ghost predicate Interleaves(tasks: seq<seq<Write>>, ws: seq<Write>)
    decreases |ws|
  {
    if ws == [] then forall t | t in tasks :: t == []
    else exists i | 0 <= i < |tasks| && tasks[i] != [] ::
           tasks[i][0] == ws[0] && Interleaves(tasks[i := tasks[i][1..]], ws[1..])
  }

  function Flatten(tasks: seq<seq<Write>>): seq<Write> {
    if tasks == [] then [] else tasks[0] + Flatten(tasks[1..])
  }

  lemma {:induction false} FlattenEmpty(tasks: seq<seq<Write>>)
    requires forall t | t in tasks :: t == []
    ensures Flatten(tasks) == []
  {
    if tasks != [] {
      assert forall t | t in tasks[1..] :: t in tasks;
      assert tasks[0] in tasks;
      FlattenEmpty(tasks[1..]);
    }
  }

  lemma {:induction false} FlattenStep(tasks: seq<seq<Write>>, i: nat)
    requires i < |tasks| && tasks[i] != []
    ensures TotalWritten(Flatten(tasks)) == |tasks[i][0].data| + TotalWritten(Flatten(tasks[i := tasks[i][1..]]))
    ensures forall w :: w in Flatten(tasks) <==> w == tasks[i][0] || w in Flatten(tasks[i := tasks[i][1..]])
  {
    var next := tasks[i := tasks[i][1..]];
    TotalWrittenConcat(tasks[0], Flatten(tasks[1..]));
    TotalWrittenConcat(next[0], Flatten(next[1..]));
    if i == 0 {
      assert next[1..] == tasks[1..];
      assert tasks[0] == [tasks[0][0]] + next[0];
    } else {
      assert next[1..] == tasks[1..][i - 1 := tasks[i][1..]];
      FlattenStep(tasks[1..], i - 1);
    }
  }

  /** An interleaving performs the same writes, so the same number of bytes. */
  lemma {:induction false} InterleavingPermutes(tasks: seq<seq<Write>>, ws: seq<Write>)
    requires Interleaves(tasks, ws)
    ensures TotalWritten(ws) == TotalWritten(Flatten(tasks))
    ensures forall w :: w in ws <==> w in Flatten(tasks)
    decreases |ws|
  {
    if ws == [] {
      FlattenEmpty(tasks);
    } else {
      var i :| 0 <= i < |tasks| && tasks[i] != [] && tasks[i][0] == ws[0]
          && Interleaves(tasks[i := tasks[i][1..]], ws[1..]);
      var next := tasks[i := tasks[i][1..]];
      InterleavingPermutes(next, ws[1..]);
      FlattenStep(tasks, i);
      assert forall w :: w in ws <==> w == ws[0] || w in ws[1..];
    }
  }

  /** The write puts bytes of `target` where they belong. */
  ghost predicate Fits(target: Bytes, w: Write) {
    w.offset + |w.data| <= |target| && w.data == target[w.offset..w.offset + |w.data|]
  }

  ghost predicate Covers(w: Write, p: nat) { w.offset <= p < w.offset + |w.data| }

  ghost predicate Covered(ws: seq<Write>, p: nat) {
    exists i | 0 <= i < |ws| :: Covers(ws[i], p)
  }

  lemma FittingWrite(target: Bytes, file: Bytes, w: Write)
    requires |file| == |target| && Fits(target, w)
    ensures |Apply(file, w)| == |target|
    ensures forall p: nat | p < |target| :: Apply(file, w)[p] == if Covers(w, p) then target[p] else file[p]
  {
  }

  lemma CoveredStep(ws: seq<Write>, p: nat)
    requires ws != []
    ensures Covered(ws, p) <==> Covered(ws[..|ws| - 1], p) || Covers(ws[|ws| - 1], p)
  {
    var front := ws[..|ws| - 1];
    if Covered(front, p) {
      var i :| 0 <= i < |front| && Covers(front[i], p);
      assert Covers(ws[i], p);
    }
    if Covered(ws, p) && !Covers(ws[|ws| - 1], p) {
      var i :| 0 <= i < |ws| && Covers(ws[i], p);
      assert Covers(front[i], p);
    }
  }

  /** Writes that all fit one target leave it wherever they reached; nothing else changes. */
  lemma {:induction false} FittingWrites(target: Bytes, file: Bytes, ws: seq<Write>)
    requires |file| == |target| && forall w | w in ws :: Fits(target, w)
    ensures |ApplyAll(file, ws)| == |target|
    ensures forall p: nat | p < |target| :: ApplyAll(file, ws)[p] == if Covered(ws, p) then target[p] else file[p]
    decreases |ws|
  {
    if ws != [] {
      var front, last := ws[..|ws| - 1], ws[|ws| - 1];
      assert last in ws && forall w | w in front :: w in ws;
      FittingWrites(target, file, front);
      FittingWrite(target, ApplyAll(file, front), last);
      forall p: nat | p < |target| ensures ApplyAll(file, ws)[p] == if Covered(ws, p) then target[p] else file[p] {
        CoveredStep(ws, p);
      }
    }
  }

  /** Hence fitting writes that together reach every position produce the target, in whatever order they come. */
  lemma AnyOrderRebuilds(target: Bytes, file: Bytes, all: seq<Write>, ws: seq<Write>)
    requires |file| == |target| && forall w | w in all :: Fits(target, w)
    requires forall p: nat | p < |target| :: Covered(all, p)
    requires forall w :: w in ws <==> w in all
    ensures ApplyAll(file, ws) == target
  {
    FittingWrites(target, file, ws);
    forall p: nat | p < |target| ensures Covered(ws, p) {
      assert Covered(all, p);
      var i :| 0 <= i < |all| && Covers(all[i], p);
      assert all[i] in ws;
      var j :| 0 <= j < |ws| && ws[j] == all[i];
      assert Covers(ws[j], p);
    }
  }

  /** `ws` lays `bytes` out from `offset` on, without gap or overlap. */
  ghost predicate Tiles(ws: seq<Write>, offset: nat, bytes: Bytes)
    decreases |ws|
  {
    if ws == [] then bytes == []
    else
      && ws[0].offset == offset && |ws[0].data| <= |bytes| && ws[0].data == bytes[..|ws[0].data|]
      && Tiles(ws[1..], offset + |ws[0].data|, bytes[|ws[0].data|..])
  }

  lemma {:induction false} TilesConcat(a: seq<Write>, b: seq<Write>, offset: nat, x: Bytes, y: Bytes)
    requires Tiles(a, offset, x) && Tiles(b, offset + |x|, y)
    ensures Tiles(a + b, offset, x + y)
    decreases |a|
  {
    if a == [] {
      assert a + b == b && x + y == y;
    } else {
      var n := |a[0].data|;
      TilesConcat(a[1..], b, offset + n, x[n..], y);
      assert (a + b)[1..] == a[1..] + b && (x + y)[n..] == x[n..] + y && (x + y)[..n] == x[..n];
    }
  }

  lemma {:induction false} TilesFitAndCover(ws: seq<Write>, offset: nat, bytes: Bytes, target: Bytes)
    requires Tiles(ws, offset, bytes)
    requires offset + |bytes| <= |target| && bytes == target[offset..offset + |bytes|]
    ensures forall w | w in ws :: Fits(target, w)
    ensures forall p: nat | offset <= p < offset + |bytes| :: Covered(ws, p)
    ensures TotalWritten(ws) == |bytes|
    decreases |ws|
  {
    if ws != [] {
      var n := |ws[0].data|;
      var rest := bytes[n..];
      assert rest == target[offset + n..offset + n + |rest|];
      TilesFitAndCover(ws[1..], offset + n, rest, target);
      assert Fits(target, ws[0]);
      assert forall w | w in ws :: w == ws[0] || w in ws[1..];
      forall p: nat | offset <= p < offset + |bytes| ensures Covered(ws, p) {
        if p < offset + n {
          assert Covers(ws[0], p);
        } else {
          assert Covered(ws[1..], p);
          var i :| 0 <= i < |ws[1..]| && Covers(ws[1..][i], p);
          assert Covers(ws[i + 1], p);
        }
      }
    }
  }

  /** A sound child downloads without error, and its writes lay out exactly its content. */
  lemma {:induction false} SoundTraceTiles(aead: Aead, key: Key, store: Store, c: Child, offset: nat)
    requires Addressed(store) && Sound(aead, key, store, c) && offset + c.size <= U64_MAX
    ensures Content(aead, key, c).Some? && |Content(aead, key, c).value| == c.size
    ensures Trace(aead, key, store, c, offset).1
    ensures Tiles(Trace(aead, key, store, c, offset).0, offset, Content(aead, key, c).value)
    decreases c
  {
    SoundHasContent(aead, key, store, c);
    match c.hash.fragment {
      case Node(children) => AllSoundTraceTiles(aead, key, store, children, offset);
      case Leaf(nonce, data) =>
        var plain := aead.decrypt(key, nonce, data).value;
        assert [Write(offset, plain)][1..] == [] && plain[..|plain|] == plain && plain[|plain|..] == [];
    }
  }

  lemma {:induction false} AllSoundTraceTiles(aead: Aead, key: Key, store: Store, children: seq<Child>, offset: nat)
    requires Addressed(store) && AllSound(aead, key, store, children) && offset + TotalSize(children) <= U64_MAX
    ensures Contents(aead, key, children).Some? && TraceAll(aead, key, store, children, offset).1
    ensures Tiles(TraceAll(aead, key, store, children, offset).0, offset, Contents(aead, key, children).value)
    decreases children
  {
    AllSoundHaveContents(aead, key, store, children);
    if children != [] {
      var c := children[0];
      SoundTraceTiles(aead, key, store, c, offset);
      AllSoundTraceTiles(aead, key, store, children[1..], offset + c.size);
      TilesConcat(Trace(aead, key, store, c, offset).0, TraceAll(aead, key, store, children[1..], offset + c.size).0,
                  offset, Content(aead, key, c).value, Contents(aead, key, children[1..]).value);
    }
  }

  /** One download task per child of the root. */
  function Tasks(aead: Aead, key: Key, store: Store, children: seq<Child>, offset: nat): (r: seq<seq<Write>>)
    ensures |r| == |children|
  {
    var offsets := ChildOffsets(children, offset);
    seq(|children|, i requires 0 <= i < |children| => Trace(aead, key, store, children[i], offsets[i]).0)
  }

  predicate AllSucceed(aead: Aead, key: Key, store: Store, children: seq<Child>, offset: nat) {
    forall i | 0 <= i < |children| :: Trace(aead, key, store, children[i], ChildOffsets(children, offset)[i]).1
  }

  /** The concurrent download of the root's children: at each turn any task with a write left performs it. The
      download succeeds when the byte count equals the declared total. */
  method RunTasks(tasks: seq<seq<Write>>, total: nat) returns (file: Bytes, ok: bool)
    ensures exists ws :: Interleaves(tasks, ws) && file == ApplyAll(Zeros(total), ws)
              && ok == (TotalWritten(ws) == total)
  {
    var d := new Download(total);
    var left := tasks;
    ghost var ws: seq<Write> := [];
    ContinuesStart(tasks);
    while exists i :: 0 <= i < |left| && left[i] != []
      invariant fresh(d)
      invariant d.contents == ApplyAll(Zeros(total), ws) && d.downloaded == TotalWritten(ws)
      invariant Continues(tasks, left, ws)
      decreases TotalLength(left)
    {
      var i :| 0 <= i < |left| && left[i] != [];
      var w, next := left[i][0], left[i := left[i][1..]];
      TotalLengthStep(left, i);
      OneMoreWrite(Zeros(total), ws, w);
      ContinuesStep(tasks, left, ws, i);
      d.contents := Apply(d.contents, w);
      d.downloaded := d.downloaded + |w.data|;
      left, ws := next, ws + [w];
    }
    ContinuesEnd(tasks, left, ws);
    file, ok := d.contents, d.downloaded == total;
  }

  /** `ws` has been performed and `left` remains: any interleaving of the rest completes one of the whole. */
  ghost predicate Continues(tasks: seq<seq<Write>>, left: seq<seq<Write>>, ws: seq<Write>) {
    forall rest | Interleaves(left, rest) :: Interleaves(tasks, ws + rest)
  }

  lemma ContinuesStart(tasks: seq<seq<Write>>)
    ensures Continues(tasks, tasks, [])
  {
    forall rest | Interleaves(tasks, rest) ensures Interleaves(tasks, [] + rest) {
      assert [] + rest == rest;
    }
  }

  lemma ContinuesEnd(tasks: seq<seq<Write>>, left: seq<seq<Write>>, ws: seq<Write>)
    requires Continues(tasks, left, ws) && !exists i :: 0 <= i < |left| && left[i] != []
    ensures Interleaves(tasks, ws)
  {
    assert forall t | t in left :: t == [];
    assert Interleaves(left, []) && ws + [] == ws;
  }

  lemma OneMoreWrite(file: Bytes, ws: seq<Write>, w: Write)
    ensures ApplyAll(file, ws + [w]) == Apply(ApplyAll(file, ws), w)
    ensures TotalWritten(ws + [w]) == TotalWritten(ws) + |w.data|
  {
    assert (ws + [w])[..|ws|] == ws;
    TotalWrittenConcat(ws, [w]);
  }

  lemma ContinuesStep(tasks: seq<seq<Write>>, left: seq<seq<Write>>, ws: seq<Write>, i: nat)
    requires Continues(tasks, left, ws) && i < |left| && left[i] != []
    ensures Continues(tasks, left[i := left[i][1..]], ws + [left[i][0]])
  {
    var w, next := left[i][0], left[i := left[i][1..]];
    forall rest | Interleaves(next, rest) ensures Interleaves(tasks, (ws + [w]) + rest) {
      assert ([w] + rest)[1..] == rest;
      assert Interleaves(left, [w] + rest);
      assert (ws + [w]) + rest == ws + ([w] + rest);
    }
  }

  function TotalLength(tasks: seq<seq<Write>>): nat {
    if tasks == [] then 0 else |tasks[0]| + TotalLength(tasks[1..])
  }

  lemma {:induction false} TotalLengthStep(tasks: seq<seq<Write>>, i: nat)
    requires i < |tasks| && tasks[i] != []
    ensures TotalLength(tasks[i := tasks[i][1..]]) < TotalLength(tasks)
  {
    if i > 0 {
      assert tasks[i := tasks[i][1..]][1..] == tasks[1..][i - 1 := tasks[i][1..]];
      TotalLengthStep(tasks[1..], i - 1);
    } else {
      assert tasks[0 := tasks[0][1..]][1..] == tasks[1..];
    }
  }

  /** Running the tasks in child order is one sequential download. */
  lemma {:induction false} FlattenedTasks(aead: Aead, key: Key, store: Store, children: seq<Child>, offset: nat)
    requires TraceAll(aead, key, store, children, offset).1
    ensures AllSucceed(aead, key, store, children, offset)
    ensures Flatten(Tasks(aead, key, store, children, offset)) == TraceAll(aead, key, store, children, offset).0
    decreases children
  {
    if children != [] {
      var next := SaturatingAdd(offset, children[0].size);
      FlattenedTasks(aead, key, store, children[1..], next);
      assert Tasks(aead, key, store, children, offset)[1..] == Tasks(aead, key, store, children[1..], next);
      forall i | 0 <= i < |children| ensures Trace(aead, key, store, children[i], ChildOffsets(children, offset)[i]).1 {
        if i > 0 {
          assert Trace(aead, key, store, children[1..][i - 1], ChildOffsets(children[1..], next)[i - 1]).1;
        }
      }
    }
  }

  /** Downloading sound children whose true content is `file`, in any interleaving, rebuilds it. */
  lemma SoundDownload(aead: Aead, key: Key, store: Store, children: seq<Child>, file: Bytes, ws: seq<Write>)
    requires Addressed(store) && AllSound(aead, key, store, children)
    requires Contents(aead, key, children) == Some(file) && |file| <= U64_MAX
    requires Interleaves(Tasks(aead, key, store, children, 0), ws)
    ensures AllSucceed(aead, key, store, children, 0)
    ensures ApplyAll(Zeros(TotalSize(children)), ws) == file && TotalWritten(ws) == TotalSize(children)
  {
    AllSoundHaveContents(aead, key, store, children);
    AllSoundTraceTiles(aead, key, store, children, 0);
    FlattenedTasks(aead, key, store, children, 0);
    var all := TraceAll(aead, key, store, children, 0).0;
    assert file == file[0..0 + |file|];
    TilesFitAndCover(all, 0, file, file);
    InterleavingPermutes(Tasks(aead, key, store, children, 0), ws);
    AnyOrderRebuilds(file, Zeros(|file|), all, ws);
  }

  /** Uploading a file, in any completion order, and downloading it, in any interleaving of the concurrent child
      downloads, from a store that may have grown meanwhile: every task succeeds, the file is rebuilt byte for
      byte and the final size check passes. */
  lemma RoundTrip(u: Upload, uploaded: Store, store: Store, ws: seq<Write>)
    requires u.Valid() && Stored(u, uploaded) && uploaded.Keys <= store.Keys && Addressed(store)
    requires Interleaves(Tasks(u.aead, u.key, store, Top(u.Leaves(0)), 0), ws)
    ensures AllSucceed(u.aead, u.key, store, Top(u.Leaves(0)), 0)
    ensures ApplyAll(Zeros(TotalSize(Top(u.Leaves(0)))), ws) == u.file
    ensures TotalWritten(ws) == TotalSize(Top(u.Leaves(0)))
  {
    assert Stored(u, store);
    UploadedMeansFile(u, store);
    SoundDownload(u.aead, u.key, store, Top(u.Leaves(0)), u.file, ws);
  }

  /** The whole download: an attachment without children is an empty file at once; otherwise every child must
      download and the byte count must match. */
  method DownloadAttachment(aead: Aead, store: Store, root: Attachment) returns (r: Option<Bytes>)
    ensures root.children == [] ==> r == Some([])
    ensures var tasks := Tasks(aead, root.key, store, root.children, 0);
            r.Some? <==>
              root.children == []
              || (AllSucceed(aead, root.key, store, root.children, 0)
                  && TotalWritten(Flatten(tasks)) == TotalSize(root.children))
    ensures r.Some? && root.children != [] ==>
              exists ws :: Interleaves(Tasks(aead, root.key, store, root.children, 0), ws)
                && r.value == ApplyAll(Zeros(TotalSize(root.children)), ws)
                && TotalWritten(ws) == TotalSize(root.children)
    ensures Addressed(store) && AllSound(aead, root.key, store, root.children)
            && TotalSize(root.children) <= U64_MAX ==>
              r == Contents(aead, root.key, root.children)
  {
    if root.children == [] {
      return Some([]);
    }
    var total := TotalSize(root.children);
    var tasks := Tasks(aead, root.key, store, root.children, 0);
    var file, ok := RunTasks(tasks, total);
    ghost var done :| Interleaves(tasks, done) && file == ApplyAll(Zeros(total), done)
        && ok == (TotalWritten(done) == total);
    InterleavingPermutes(tasks, done);
    if Addressed(store) && AllSound(aead, root.key, store, root.children) && total <= U64_MAX {
      AllSoundHaveContents(aead, root.key, store, root.children);
      SoundDownload(aead, root.key, store, root.children, Contents(aead, root.key, root.children).value, done);
    }
    return if AllSucceed(aead, root.key, store, root.children, 0) && ok then Some(file) else None;
  }

  // ---------- Servers that answer what they like ----------

  /** A child that downloads from two servers does the same writes from both: what it is made of is in its hash. */
  lemma {:induction false} SameTrace(aead: Aead, key: Key, a: Store, b: Store, c: Child, offset: nat)
    requires Trace(aead, key, a, c, offset).1 && Trace(aead, key, b, c, offset).1
    ensures Trace(aead, key, a, c, offset) == Trace(aead, key, b, c, offset)
    decreases c
  {
    match c.hash.fragment {
      case Node(children) => SameTraces(aead, key, a, b, children, offset);
      case Leaf(_, _) =>
    }
  }

  lemma {:induction false} SameTraces(aead: Aead, key: Key, a: Store, b: Store, children: seq<Child>, offset: nat)
    requires TraceAll(aead, key, a, children, offset).1 && TraceAll(aead, key, b, children, offset).1
    ensures TraceAll(aead, key, a, children, offset) == TraceAll(aead, key, b, children, offset)
    decreases children
  {
    if children != [] {
      SameTrace(aead, key, a, b, children[0], offset);
      SameTraces(aead, key, a, b, children[1..], SaturatingAdd(offset, children[0].size));
    }
  }

  lemma SameTasks(aead: Aead, key: Key, a: Store, b: Store, children: seq<Child>, offset: nat)
    requires AllSucceed(aead, key, a, children, offset) && AllSucceed(aead, key, b, children, offset)
    ensures Tasks(aead, key, a, children, offset) == Tasks(aead, key, b, children, offset)
  {
    var offsets := ChildOffsets(children, offset);
    forall i | 0 <= i < |children|
      ensures Trace(aead, key, a, children[i], offsets[i]) == Trace(aead, key, b, children[i], offsets[i])
    {
      SameTrace(aead, key, a, b, children[i], offsets[i]);
    }
  }

  /** Integrity: whatever a server answers, forged, stale or missing fragments included, a download of an uploaded
      file in which every child succeeds gives exactly the file, in any interleaving. */
  lemma DownloadIsIntact(u: Upload, uploaded: Store, served: Store, ws: seq<Write>)
    requires u.Valid() && Stored(u, uploaded) && Addressed(uploaded)
    requires AllSucceed(u.aead, u.key, served, Top(u.Leaves(0)), 0)
    requires Interleaves(Tasks(u.aead, u.key, served, Top(u.Leaves(0)), 0), ws)
    ensures ApplyAll(Zeros(TotalSize(Top(u.Leaves(0)))), ws) == u.file
    ensures TotalWritten(ws) == TotalSize(Top(u.Leaves(0)))
  {
    var children := Top(u.Leaves(0));
    UploadedMeansFile(u, uploaded);
    AllSoundTraceTiles(u.aead, u.key, uploaded, children, 0);
    FlattenedTasks(u.aead, u.key, uploaded, children, 0);
    SameTasks(u.aead, u.key, uploaded, served, children, 0);
    RoundTrip(u, uploaded, uploaded, ws);
  }

  /** A file uploaded to one store and downloaded from whatever another holds: the file, or nothing. */
  method DownloadElsewhere(u: Upload, order: seq<nat>, store: Store, served: Store) returns (r: Option<Bytes>)
    requires u.Valid() && CompletionOrder(order, |u.nonces|) && Addressed(store)
    ensures r == None || r == Some(u.file)
  {
    var uploaded, root := UploadFile(u, order, store);
    r := DownloadAttachment(u.aead, served, root);
    UploadedMeansFile(u, uploaded);
    if r.Some? && root.children != [] {
      ghost var ws :| Interleaves(Tasks(u.aead, u.key, served, root.children, 0), ws)
                      && r.value == ApplyAll(Zeros(TotalSize(root.children)), ws)
                      && TotalWritten(ws) == TotalSize(root.children);
      DownloadIsIntact(u, uploaded, served, ws);
    }
  }

  /** One file up and down again, with the completion order and the interleaving left open. */
  method UploadThenDownload(u: Upload, order: seq<nat>, store: Store) returns (r: Option<Bytes>)
    requires u.Valid() && CompletionOrder(order, |u.nonces|) && Addressed(store)
    ensures r == Some(u.file)
  {
    var store', root := UploadFile(u, order, store);
    UploadedMeansFile(u, store');
    r := DownloadAttachment(u.aead, store', root);
  }
}

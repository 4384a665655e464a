/** The server's fragment table: expiries that only move outwards, and the janitor that removes what has expired. */
module FragmentStore {
  import opened Common

  datatype Hash = Hash(id: nat)

  const NANOS: nat := 1_000_000_000
  const U32_MAX: nat := 0xFFFF_FFFF
  const U64_MAX: nat := 0xFFFF_FFFF_FFFF_FFFF
  const I64_MAX: nat := 0x7FFF_FFFF_FFFF_FFFF
  const BATCH: nat := 500

  /** Casting a 64-bit unsigned number to a signed one. */
  function ToI64(x: nat): int
    requires x <= U64_MAX
  {
    if x <= I64_MAX then x else x - (U64_MAX + 1)
  }

  function Saturate(x: nat): nat { if x <= U64_MAX then x else U64_MAX }

  /** None is "never". */
  function ExpiresAt(now: nat, ttl: nat): Option<int> {
    if ttl == 0 then None else Some(ToI64(Saturate(now + Saturate(ttl * NANOS))))
  }

  /** A ttl of 0 means never. For any other the stored expiry is the intended one exactly while the sum fits 63 bits;
      every 32-bit ttl does at the present day. */
  lemma ExpiryExactIff(now: nat, ttl: nat)
    requires now <= U64_MAX && ttl <= U32_MAX
    ensures ExpiresAt(now, ttl) == None <==> ttl == 0
    ensures ttl > 0 ==>
              (ExpiresAt(now, ttl) == Some(now + ttl * 1_000_000_000)
               <==> now + ttl * 1_000_000_000 <= 0x7FFF_FFFF_FFFF_FFFF)
    ensures now <= I64_MAX - U32_MAX * NANOS ==> now + ttl * NANOS <= I64_MAX
  {
    assert ttl * NANOS <= U32_MAX * NANOS;
  }

  /** Expired at `now`: never for None. */
  predicate Expired(expiry: Option<int>, now: int) { expiry.Some? && expiry.value <= now }

  function Later(a: Option<int>, b: Option<int>): Option<int> {
    if a.None? || b.None? then None else if a.value > b.value then a else b
  }

  /** Whether expiry `a` is at least as late as `b`. */
  predicate AtLeast(a: Option<int>, b: Option<int>) {
    a.None? || (b.Some? && a.value >= b.value)
  }

  type Rows = map<Hash, Option<int>>

  function Upsert(rows: Rows, h: Hash, expiry: Option<int>): Rows {
    rows[h := if h in rows then Later(rows[h], expiry) else expiry]
  }

  function Sweep(rows: Rows, now: int): Rows {
    map h | h in rows && !Expired(rows[h], now) :: rows[h]
  }

  /** The files left once those of the expired rows are deleted. */
  function SweepFiles(rows: Rows, files: set<Hash>, now: int): set<Hash> {
    files - set h | h in rows && Expired(rows[h], now)
  }

  class FragmentDb {
    var rows: Rows
    var files: set<Hash>

    /** Between operations the files are those of the rows. */
    ghost predicate Valid() reads this { files == rows.Keys }

    constructor ()
      ensures Valid() && rows == map[]
    {
      rows, files := map[], {};
    }

    method Upload(authorized: bool, h: Hash, now: nat, ttl: nat) returns (accepted: bool)
      requires Valid() && now <= U64_MAX && ttl <= U32_MAX
      modifies this
      ensures Valid() && accepted == authorized
      ensures rows == if authorized then Upsert(old(rows), h, ExpiresAt(now, ttl)) else old(rows)
    {
      if !authorized {
        return false;
      }
      var expiry := ExpiresAt(now, ttl);
      files := files + {h};
      rows := Upsert(rows, h, expiry);
      return true;
    }

    /** Downloads look at the files only. */
    method Load(h: Hash) returns (found: bool)
      requires Valid()
      ensures found == (h in rows)
    {
      found := h in files;
    }

    /** 500 of the expired hashes, or all of them if there are fewer. */
    method SelectExpired(now: int) returns (batch: seq<Hash>)
      ensures forall h | h in batch :: h in rows && Expired(rows[h], now)
      ensures |batch| <= 500 && forall i, j | 0 <= i < j < |batch| :: batch[i] != batch[j]
      ensures |batch| < 500 ==> forall h | h in rows && Expired(rows[h], now) :: h in batch
    {
      batch := [];
      var left := set h | h in rows && Expired(rows[h], now);
      while left != {} && |batch| < BATCH
        invariant forall h | h in batch :: h in rows && Expired(rows[h], now)
        invariant forall h | h in left :: h in rows && Expired(rows[h], now)
        invariant |batch| <= BATCH && forall i, j | 0 <= i < j < |batch| :: batch[i] != batch[j]
        invariant forall h | h in left :: h !in batch
        invariant forall h | h in rows && Expired(rows[h], now) :: h in batch || h in left
        decreases left
      {
        var h :| h in left;
        batch, left := batch + [h], left - {h};
      }
    }

    /** Batches until a selection comes back empty: exactly the expired rows and their files are gone. */
    method JanitorOnce(now: int)
      modifies this
      ensures rows == Sweep(old(rows), now)
      ensures files == SweepFiles(old(rows), old(files), now)
      ensures old(Valid()) ==> Valid()
    {
      while true
        invariant Sweep(rows, now) == Sweep(old(rows), now)
        invariant SweepFiles(rows, files, now) == SweepFiles(old(rows), old(files), now)
        decreases rows.Keys
      {
        var batch := SelectExpired(now);
        if batch == [] {
          assert Sweep(rows, now) == rows;
          assert SweepFiles(rows, files, now) == files;
          return;
        }
        ghost var before, filesBefore := rows, files;
        for i := 0 to |batch|
          invariant rows == before - set k | 0 <= k < i :: batch[k]
          invariant files == filesBefore - set k | 0 <= k < i :: batch[k]
          invariant forall h | h in batch :: h in before && Expired(before[h], now)
        {
          rows := rows - {batch[i]};
          files := files - {batch[i]};
        }
        assert batch[0] in batch && batch[0] in before && batch[0] !in rows;
        assert Sweep(rows, now) == Sweep(before, now);
        assert SweepFiles(rows, files, now) == SweepFiles(before, filesBefore, now);
      }
    }
  }

  // ---------- Whole runs ----------

  datatype Event = Upload(h: Hash, expiry: Option<int>) | Janitor(now: int)

  function After(events: seq<Event>): Rows {
    if events == [] then map[]
    else
      var rows := After(events[..|events| - 1]);
      match events[|events| - 1]
      case Upload(h, expiry) => Upsert(rows, h, expiry)
      case Janitor(now) => Sweep(rows, now)
  }

  /** Upload `i` was for `h`, and no janitor since has run at or past its expiry. */
  ghost predicate Keeps(events: seq<Event>, i: nat, h: Hash) {
    && i < |events| && events[i].Upload? && events[i].h == h
    && forall j | i < j < |events| && events[j].Janitor? :: !Expired(events[i].expiry, events[j].now)
  }

  lemma KeepsPrefix(events: seq<Event>, e: Event, i: nat, h: Hash)
    requires i < |events|
    ensures Keeps(events + [e], i, h) <==> Keeps(events, i, h) && (e.Janitor? ==> !Expired(events[i].expiry, e.now))
  {
    var more := events + [e];
    assert more[|events|] == e && forall j | 0 <= j < |events| :: more[j] == events[j];
  }

  /** `h` has a row exactly if some upload keeps it, and then the row carries the latest expiry among those. */
  ghost predicate Explained(events: seq<Event>, rows: Rows, h: Hash) {
    && (h in rows <==> exists i: nat :: Keeps(events, i, h))
    && (h in rows ==>
          && (forall i: nat :: Keeps(events, i, h) ==> AtLeast(rows[h], events[i].expiry))
          && (exists i: nat :: Keeps(events, i, h) && events[i].expiry == rows[h]))
  }

  /** After every run of uploads and janitors, what is stored is exactly what some upload still keeps. */
  lemma {:induction false} StoredIff(events: seq<Event>, h: Hash)
    ensures Explained(events, After(events), h)
    decreases |events|
  {
    if events != [] {
      var n := |events| - 1;
      var front, e := events[..n], events[n];
      assert events == front + [e];
      StoredIff(front, h);
      StoredStep(front, e, h);
    }
  }

  lemma StoredStep(front: seq<Event>, e: Event, h: Hash)
    requires Explained(front, After(front), h)
    ensures Explained(front + [e], After(front + [e]), h)
  {
    var events, n := front + [e], |front|;
    assert events[..n] == front && events[n] == e;
    forall i: nat | i < n
      ensures Keeps(events, i, h) <==> Keeps(front, i, h) && (e.Janitor? ==> !Expired(front[i].expiry, e.now))
    {
      KeepsPrefix(front, e, i, h);
    }
    forall i: nat | i < n ensures events[i] == front[i] {
    }
    match e {
      case Upload(g, expiry) =>
        if g == h {
          assert Keeps(events, n, h);
          if h in After(front) {
            var i: nat :| Keeps(front, i, h) && front[i].expiry == After(front)[h];
            assert Keeps(events, i, h);
          }
        } else if h in After(front) {
          var i: nat :| Keeps(front, i, h) && front[i].expiry == After(front)[h];
          assert Keeps(events, i, h);
        }
      case Janitor(now) =>
        if h in After(front) {
          var i: nat :| Keeps(front, i, h) && front[i].expiry == After(front)[h];
          if !Expired(front[i].expiry, now) {
            assert Keeps(events, i, h);
          }
        }
    }
  }

  // ---------- Whole runs, by the clock ----------

  /** An upload or a janitor's run as the server is asked for it. */
  datatype Call = Put(h: Hash, now: nat, ttl: nat) | Clean(now: nat)

  function EventOf(c: Call): Event {
    match c
    case Put(h, now, ttl) => Upload(h, ExpiresAt(now, ttl))
    case Clean(now) => Janitor(if now <= U64_MAX then ToI64(now) else I64_MAX)
  }

  function EventsOf(calls: seq<Call>): seq<Event> { Map(EventOf, calls) }

  /** No time in the run reaches beyond 63 bits. */
  predicate WithinRange(calls: seq<Call>) {
    forall c | c in calls ::
      match c
      case Put(_, now, ttl) => now + ttl * 1_000_000_000 <= 0x7FFF_FFFF_FFFF_FFFF
      case Clean(now) => now <= 0x7FFF_FFFF_FFFF_FFFF
  }

  /** Call `i` uploaded `h`, for ever or for a time that no janitor since has reached. */
  ghost predicate Lasts(calls: seq<Call>, i: nat, h: Hash) {
    && i < |calls| && calls[i].Put? && calls[i].h == h
    && (calls[i].ttl == 0
        || forall j | i < j < |calls| && calls[j].Clean? :: calls[j].now < calls[i].now + calls[i].ttl * 1_000_000_000)
  }

  lemma LastsIffKeeps(calls: seq<Call>, i: nat, h: Hash)
    requires WithinRange(calls)
    ensures Lasts(calls, i, h) <==> Keeps(EventsOf(calls), i, h)
  {
    var events := EventsOf(calls);
    if i < |calls| && calls[i].Put? {
      assert calls[i] in calls && events[i] == EventOf(calls[i]);
      forall j | i < j < |calls| && calls[j].Clean?
        ensures events[j] == Janitor(calls[j].now)
      {
        assert calls[j] in calls && events[j] == EventOf(calls[j]);
      }
      forall j | i < j < |calls| ensures events[j].Janitor? <==> calls[j].Clean? {
        assert events[j] == EventOf(calls[j]);
      }
    } else if i < |calls| {
      assert events[i] == EventOf(calls[i]);
    }
  }

  /** After every run by the clock a fragment is stored exactly if some upload of it was for ever, or for a time that no
      janitor has reached since: until the first janitor at or past the largest `now` plus ttl. */
  lemma StoredUntilIff(calls: seq<Call>, h: Hash)
    requires WithinRange(calls)
    ensures h in After(EventsOf(calls)) <==> exists i: nat :: Lasts(calls, i, h)
  {
    StoredIff(EventsOf(calls), h);
    forall i: nat ensures Lasts(calls, i, h) <==> Keeps(EventsOf(calls), i, h) {
      LastsIffKeeps(calls, i, h);
    }
  }

  /** What was once uploaded with a ttl of 0 is stored after every later run, whatever the times. */
  lemma TtlZeroIsKept(calls: seq<Call>, i: nat)
    requires i < |calls| && calls[i].Put? && calls[i].ttl == 0
    ensures calls[i].h in After(EventsOf(calls)) && After(EventsOf(calls))[calls[i].h] == None
  {
    var h, events := calls[i].h, EventsOf(calls);
    assert events[i] == EventOf(calls[i]);
    StoredIff(events, h);
    assert Keeps(events, i, h);
  }

  /** The order of uploads between two janitor runs does not matter. */
  lemma UploadsCommute(rows: Rows, g: Hash, a: Option<int>, h: Hash, b: Option<int>)
    ensures Upsert(Upsert(rows, g, a), h, b) == Upsert(Upsert(rows, h, b), g, a)
  {
    if g == h {
      var x := Upsert(Upsert(rows, g, a), h, b);
      var y := Upsert(Upsert(rows, h, b), g, a);
      assert x.Keys == y.Keys && x[h] == y[h];
    }
  }

  // ---------- An upload split in two: the file is written before the row ----------

  function Sweeps(rows: Rows, files: set<Hash>, nows: seq<int>): (Rows, set<Hash>) {
    if nows == [] then (rows, files)
    else Sweeps(Sweep(rows, nows[0]), SweepFiles(rows, files, nows[0]), nows[1..])
  }

  /** The rows and files once the upload's row is written too. */
  function SplitUpload(rows: Rows, files: set<Hash>, h: Hash, nows: seq<int>, expiry: Option<int>): (Rows, set<Hash>) {
    var swept := Sweeps(rows, files + {h}, nows);
    (Upsert(swept.0, h, expiry), swept.1)
  }

  /** An upload whose file is written, then swept past by janitors, then given its row, always leaves a row, and
      leaves its file exactly if the row it found had expired at none of the janitors. */
  lemma SplitUploadKeepsFileIff(rows: Rows, files: set<Hash>, h: Hash, nows: seq<int>, expiry: Option<int>)
    ensures var after := SplitUpload(rows, files, h, nows, expiry);
            && h in after.0
            && (h in after.1 <==> !(h in rows && exists now :: now in nows && Expired(rows[h], now)))
  {
    SweptKeepsFileIff(rows, files + {h}, h, nows);
  }

  /** A fragment due at 5, uploaded again for ever while a janitor runs at 5: its row never expires, its file is
      gone. */
  lemma SplitUploadLosesFile(h: Hash)
    ensures SplitUpload(map[h := Some(5)], {h}, h, [5], None) == (map[h := None], {})
  {
    var rows: Rows := map[h := Some(5)];
    assert Sweeps(rows, {h}, [5]) == Sweeps(Sweep(rows, 5), SweepFiles(rows, {h}, 5), []);
    assert Sweep(rows, 5) == map[] && SweepFiles(rows, {h}, 5) == {} && {h} + {h} == {h};
  }

  lemma {:induction false} SweptKeepsFileIff(rows: Rows, files: set<Hash>, h: Hash, nows: seq<int>)
    requires h in files
    ensures h in Sweeps(rows, files, nows).1 <==>
            !(h in rows && exists now :: now in nows && Expired(rows[h], now))
    decreases |nows|
  {
    if nows != [] {
      var now := nows[0];
      if h in rows && Expired(rows[h], now) {
        SweptStaysGone(Sweep(rows, now), SweepFiles(rows, files, now), h, nows[1..]);
      } else {
        SweptKeepsFileIff(Sweep(rows, now), SweepFiles(rows, files, now), h, nows[1..]);
      }
    }
  }

  lemma {:induction false} SweptStaysGone(rows: Rows, files: set<Hash>, h: Hash, nows: seq<int>)
    requires h !in files
    ensures h !in Sweeps(rows, files, nows).1
    decreases |nows|
  {
    if nows != [] {
      SweptStaysGone(Sweep(rows, nows[0]), SweepFiles(rows, files, nows[0]), h, nows[1..]);
    }
  }
}

/**
 The absolute-expiry cache (`lcache/cache.go`), one call at a time, with its TTL arithmetic.
 A DNS record is a shared object whose TTL the cache rewrites in place: records are numbered, and
 `Headers` is the memory that holds the TTL of each number. Times are nanoseconds.
 */
module Lcache {
  import opened Text

  const SECOND := 1_000_000_000
  const MAX_UINT32 := 0xFFFF_FFFF
  const MAX_INT64 := 0x7FFF_FFFF_FFFF_FFFF

  type uint32 = x: int | 0 <= x <= MAX_UINT32

  // -------- machine arithmetic --------

  /** Conversion to uint32 keeps the low 32 bits. */
  function AsUint32(x: int): uint32 {
    x % (MAX_UINT32 + 1)
  }

  /** An int64 product wraps around. */
  function WrapInt64(x: int): int {
    (x + MAX_INT64 + 1) % (2 * MAX_INT64 + 2) - MAX_INT64 - 1
  }

  /** `Time.Sub` saturates at the int64 range. */
  function Sub(t: int, u: int): int {
    if t - u > MAX_INT64 then MAX_INT64
    else if t - u < -MAX_INT64 - 1 then -MAX_INT64 - 1
    else t - u
  }

  // -------- entries and tables --------

  datatype LEntry = LEntry(rrs: seq<nat>, expiresAt: int)

  datatype Table = Table(backend: map<string, LEntry>, size: int)

  const EMPTY := Table(map[], 0)

  datatype GetResult = Hit(rrs: seq<nat>) | KeyNotFound | KeyExpired

  /** The smallest TTL of an entry; the largest uint32 if it has no record. */
  function MinTtl(headers: seq<uint32>, rrs: seq<nat>): uint32 {
    if rrs == [] then MAX_UINT32
    else
      var rest := MinTtl(headers, rrs[..|rrs| - 1]);
      var r := rrs[|rrs| - 1];
      if r < |headers| && rest > headers[r] then headers[r] else rest
  }

  function ExpiresAt(now: int, minTtl: uint32): int {
    now + WrapInt64(minTtl * SECOND)
  }

  function NewTtl(e: LEntry, now: int): uint32
    requires now <= e.expiresAt
  {
    AsUint32(Sub(e.expiresAt, now) / SECOND)
  }

  /** The memory after the TTL of every record of an entry was overwritten. */
  function Rewritten(headers: seq<uint32>, rrs: seq<nat>, ttl: uint32): (h: seq<uint32>)
    ensures |h| == |headers|
  {
    seq(|headers|, i requires 0 <= i < |headers| => if i in rrs then ttl else headers[i])
  }

  predicate Full(max: int, t: Table) {
    max > 0 && t.size >= max
  }

  function Removed(t: Table, key: string): Table {
    if key in t.backend then Table(t.backend - {key}, t.size - 1) else t
  }

  function Inserted(t: Table, key: string, e: LEntry): Table {
    Table(t.backend[key := e], if key in t.backend then t.size else t.size + 1)
  }

  function Got(t: Table, headers: seq<uint32>, key: string, now: int): (Table, seq<uint32>, GetResult) {
    var k := Lower(key);
    if k !in t.backend then (t, headers, KeyNotFound)
    else
      var e := t.backend[k];
      if now > e.expiresAt then (Removed(t, k), headers, KeyExpired)
      else (t, Rewritten(headers, e.rrs, NewTtl(e, now)), Hit(e.rrs))
  }

  predicate Accepts(max: int, t: Table, key: string) {
    !Full(max, t) || Lower(key) in t.backend
  }

  function WasSet(max: int, t: Table, headers: seq<uint32>, key: string, entry: Option<seq<nat>>, now: int): Table {
    match entry
    case None => Removed(t, key)
    case Some(rrs) =>
      if Accepts(max, t, key) then Inserted(t, Lower(key), LEntry(rrs, ExpiresAt(now, MinTtl(headers, rrs)))) else t
  }

  // -------- the cache object --------

  class Headers {
    var ttl: seq<uint32>

    constructor (ttl: seq<uint32>)
      ensures this.ttl == ttl
    {
      this.ttl := ttl;
    }
  }

  class LengCache {
    var backend: map<string, LEntry>
    var size: int
    const maxSize: int
    const headers: Headers

    ghost predicate Valid()
      reads this, headers
    {
      forall k, r :: k in backend && r in backend[k].rrs ==> r < |headers.ttl|
    }

    ghost function Contents(): Table
      reads this
    {
      Table(backend, size)
    }

    constructor (maxSize: int, headers: Headers)
      ensures Valid() && Contents() == EMPTY && this.maxSize == maxSize && this.headers == headers
    {
      this.maxSize, this.headers := maxSize, headers;
      backend, size := map[], 0;
    }

    method Get(key: string, now: int) returns (r: GetResult)
      requires Valid()
      modifies this, headers
      ensures Valid()
      ensures (Contents(), headers.ttl, r) == Got(old(Contents()), old(headers.ttl), key, now)
    {
      var k := Lower(key);
      if k !in backend {
        return KeyNotFound;
      }
      var entry := backend[k];
      if now > entry.expiresAt {
        Remove(k);
        return KeyExpired;
      }
      var newTtl := AsUint32(Sub(entry.expiresAt, now) / SECOND);
      ghost var before := headers.ttl;
      for i := 0 to |entry.rrs|
        invariant backend == old(backend) && size == old(size)
        invariant headers.ttl == Rewritten(before, entry.rrs[..i], newTtl)
      {
        assert entry.rrs[i] in backend[k].rrs;
        headers.ttl := headers.ttl[entry.rrs[i] := newTtl];
        assert entry.rrs[..i + 1] == entry.rrs[..i] + [entry.rrs[i]];
      }
      assert entry.rrs[..|entry.rrs|] == entry.rrs;
      return Hit(entry.rrs);
    }

    /** The smallest TTL, found by scanning the records. */
    method MinTtlFor(rrs: seq<nat>) returns (minTtl: uint32)
      requires forall r :: r in rrs ==> r < |headers.ttl|
      ensures minTtl == MinTtl(headers.ttl, rrs)
    {
      minTtl := MAX_UINT32;
      for i := 0 to |rrs|
        invariant minTtl == MinTtl(headers.ttl, rrs[..i])
      {
        assert rrs[i] in rrs;
        var msgTtl := headers.ttl[rrs[i]];
        assert rrs[..i + 1][..i] == rrs[..i];
        if minTtl > msgTtl {
          minTtl := msgTtl;
        }
      }
      assert rrs[..|rrs|] == rrs;
    }

    method Set(key: string, entry: Option<seq<nat>>, now: int) returns (ok: bool)
      requires Valid()
      requires entry.Some? ==> forall r :: r in entry.value ==> r < |headers.ttl|
      modifies this
      ensures Valid()
      ensures Contents() == WasSet(maxSize, old(Contents()), headers.ttl, key, entry, now)
      ensures ok <==> entry.None? || Accepts(maxSize, old(Contents()), key)
    {
      if entry.None? {
        Remove(key);
        return true;
      }
      var k := Lower(key);
      LowerIdempotent(key);
      var full := IsFull();
      if full && k !in backend {
        return false;
      }
      var minTtl := MinTtlFor(entry.value);
      var e := LEntry(entry.value, now + WrapInt64(minTtl * SECOND));
      var loaded := k in backend;
      backend := backend[k := e];
      if !loaded {
        size := size + 1;
      }
      return true;
    }

    method Exists(key: string) returns (found: bool)
      ensures found <==> Lower(key) in backend
    {
      found := Lower(key) in backend;
    }

    method Remove(key: string)
      requires Valid()
      modifies this
      ensures Valid() && Contents() == Removed(old(Contents()), key)
    {
      if key in backend {
        backend := backend - {key};
        size := size - 1;
      }
    }

    method Length() returns (n: int)
      ensures n == size
    {
      n := size;
    }

    method IsFull() returns (full: bool)
      ensures full == Full(maxSize, Contents())
    {
      full := maxSize > 0 && size >= maxSize;
    }
  }

  // -------- the arithmetic never overflows --------

  lemma {:induction false} MinTtlIsLeast(headers: seq<uint32>, rrs: seq<nat>)
    requires forall r :: r in rrs ==> r < |headers|
    ensures forall r :: r in rrs ==> MinTtl(headers, rrs) <= headers[r]
    ensures rrs != [] ==> exists r :: r in rrs && headers[r] == MinTtl(headers, rrs)
    ensures rrs == [] ==> MinTtl(headers, rrs) == MAX_UINT32
  {
    if rrs != [] {
      var init := rrs[..|rrs| - 1];
      var r := rrs[|rrs| - 1];
      assert rrs == init + [r];
      assert forall q :: q in init ==> q in rrs;
      MinTtlIsLeast(headers, init);
      assert r in rrs;
      if init != [] {
        var q :| q in init && headers[q] == MinTtl(headers, init);
        assert q in rrs;
      }
    }
  }

  /** No TTL, not even the default of an empty answer, overflows a Duration. */
  lemma ExpiryExact(now: int, minTtl: uint32)
    ensures ExpiresAt(now, minTtl) == now + minTtl * SECOND
  {
  }

  /** At any time from the moment of the Set to its expiry, the new TTL is the floor of what remains. */
  lemma NewTtlExact(setAt: int, minTtl: uint32, rrs: seq<nat>, now: int)
    requires setAt <= now <= setAt + minTtl * SECOND
    ensures var e := LEntry(rrs, ExpiresAt(setAt, minTtl));
            now <= e.expiresAt && NewTtl(e, now) == (setAt + minTtl * SECOND - now) / SECOND <= minTtl
  {
  }

  // -------- histories --------

  datatype Op =
    | SetOp(key: string, entry: Option<seq<nat>>, now: int)
    | GetOp(key: string, now: int)
    | RemoveOp(key: string, now: int)

  datatype World = World(table: Table, headers: seq<uint32>)

  function Apply(max: int, w: World, op: Op): World {
    match op
    case SetOp(key, entry, now) => w.(table := WasSet(max, w.table, w.headers, key, entry, now))
    case GetOp(key, now) => var (t, h, _) := Got(w.table, w.headers, key, now); World(t, h)
    case RemoveOp(key, now) => w.(table := Removed(w.table, key))
  }

  /** The cache and the shared TTLs after a history that starts from an empty cache. */
  function Exec(max: int, headers: seq<uint32>, ops: seq<Op>): World {
    if ops == [] then World(EMPTY, headers)
    else Apply(max, Exec(max, headers, ops[..|ops| - 1]), ops[|ops| - 1])
  }

  /** The smallest TTL that the i-th operation of a history saw. */
  function MinTtlSeen(max: int, headers: seq<uint32>, ops: seq<Op>, i: nat): uint32
    requires i < |ops| && ops[i].SetOp? && ops[i].entry.Some?
  {
    MinTtl(Exec(max, headers, ops[..i]).headers, ops[i].entry.value)
  }

  predicate Stores(op: Op, k: string) {
    op.SetOp? && op.entry.Some? && Lower(op.key) == k
  }

  predicate Deletes(op: Op, k: string) {
    (op.RemoveOp? || (op.SetOp? && op.entry.None?)) && op.key == k
  }

  /** The history leaves the i-th operation, an accepted Set of k, as the one that decides k. */
  ghost predicate DecidedBy(max: int, headers: seq<uint32>, ops: seq<Op>, k: string, i: nat) {
    && i < |ops| && Stores(ops[i], k)
    && Accepts(max, Exec(max, headers, ops[..i]).table, k)
    && (forall j :: i < j < |ops| ==> !Stores(ops[j], k) && !Deletes(ops[j], k))
    && (forall j :: i < j < |ops| && ops[j].GetOp? && Lower(ops[j].key) == k
          ==> ops[j].now <= ops[i].now + MinTtlSeen(max, headers, ops, i) * SECOND)
  }

  function EntryOf(max: int, headers: seq<uint32>, ops: seq<Op>, i: nat): LEntry
    requires i < |ops| && ops[i].SetOp? && ops[i].entry.Some?
  {
    LEntry(ops[i].entry.value, ops[i].now + MinTtlSeen(max, headers, ops, i) * SECOND)
  }

  /** What is known about k from the history alone. */
  ghost predicate Explained(max: int, headers: seq<uint32>, ops: seq<Op>, k: string) {
    var t := Exec(max, headers, ops).table;
    && (k in t.backend <==> exists i :: DecidedBy(max, headers, ops, k, i))
    && (forall i :: DecidedBy(max, headers, ops, k, i) ==> k in t.backend && t.backend[k] == EntryOf(max, headers, ops, i))
  }

  lemma PrefixSame(ops: seq<Op>, i: nat)
    requires ops != [] && i < |ops| - 1
    ensures ops[..|ops| - 1][..i] == ops[..i]
  {
  }

  /** Within the prefix, the deciding operation is the same unless the last operation touches k. */
  lemma DecidedByExtends(max: int, headers: seq<uint32>, ops: seq<Op>, k: string, i: nat)
    requires ops != [] && i < |ops| - 1
    ensures var last := ops[|ops| - 1];
            DecidedBy(max, headers, ops, k, i) <==>
              && DecidedBy(max, headers, ops[..|ops| - 1], k, i)
              && !Stores(last, k) && !Deletes(last, k)
              && (last.GetOp? && Lower(last.key) == k ==> last.now <= EntryOf(max, headers, ops, i).expiresAt)
  {
    var init := ops[..|ops| - 1];
    PrefixSame(ops, i);
    assert forall j :: 0 <= j < |init| ==> init[j] == ops[j];
  }

  /** The last operation decides k exactly when it is an accepted Set of k. */
  lemma DecidedByLast(max: int, headers: seq<uint32>, ops: seq<Op>, k: string)
    requires ops != []
    ensures DecidedBy(max, headers, ops, k, |ops| - 1)
            <==> Stores(ops[|ops| - 1], k) && Accepts(max, Exec(max, headers, ops[..|ops| - 1]).table, k)
  {
  }

  /** How the deciding operations of a history relate to those of the history without its last operation. */
  ghost predicate LinkedToPrefix(max: int, headers: seq<uint32>, ops: seq<Op>, k: string)
    requires ops != []
  {
    var n, last := |ops| - 1, ops[|ops| - 1];
    && (DecidedBy(max, headers, ops, k, n) <==> Stores(last, k) && Accepts(max, Exec(max, headers, ops[..n]).table, k))
    && (forall i :: 0 <= i < n ==>
          && (DecidedBy(max, headers, ops, k, i) <==>
              && DecidedBy(max, headers, ops[..n], k, i) && !Stores(last, k) && !Deletes(last, k)
              && (last.GetOp? && Lower(last.key) == k ==> last.now <= EntryOf(max, headers, ops, i).expiresAt))
          && (DecidedBy(max, headers, ops[..n], k, i) ==>
              EntryOf(max, headers, ops[..n], i) == EntryOf(max, headers, ops, i)))
  }

  lemma PrefixLink(max: int, headers: seq<uint32>, ops: seq<Op>, k: string)
    requires ops != []
    ensures LinkedToPrefix(max, headers, ops, k)
  {
    DecidedByLast(max, headers, ops, k);
    forall i | 0 <= i < |ops| - 1
      ensures DecidedBy(max, headers, ops, k, i) ==> DecidedBy(max, headers, ops[..|ops| - 1], k, i)
      ensures DecidedBy(max, headers, ops[..|ops| - 1], k, i) ==>
                EntryOf(max, headers, ops[..|ops| - 1], i) == EntryOf(max, headers, ops, i)
    {
      DecidedByExtends(max, headers, ops, k, i);
      PrefixSame(ops, i);
    }
    forall i | 0 <= i < |ops| - 1 && DecidedBy(max, headers, ops[..|ops| - 1], k, i)
      ensures var last := ops[|ops| - 1];
              DecidedBy(max, headers, ops, k, i) <==>
                && !Stores(last, k) && !Deletes(last, k)
                && (last.GetOp? && Lower(last.key) == k ==> last.now <= EntryOf(max, headers, ops, i).expiresAt)
    {
      DecidedByExtends(max, headers, ops, k, i);
    }
  }

  /** A key is stored exactly when the history has an operation that decides it, with exactly the entry that operation made. */
  lemma {:induction false} HistoryExplainsTable(max: int, headers: seq<uint32>, ops: seq<Op>, k: string)
    ensures Explained(max, headers, ops, k)
  {
    if ops != [] {
      var last := ops[|ops| - 1];
      HistoryExplainsTable(max, headers, ops[..|ops| - 1], k);
      PrefixLink(max, headers, ops, k);
      if Stores(last, k) {
        StoreExplained(max, headers, ops, k);
      } else if Deletes(last, k) || (last.GetOp? && Lower(last.key) == k) {
        DropExplained(max, headers, ops, k);
      } else {
        OtherExplained(max, headers, ops, k);
      }
    }
  }

  lemma StoreExplained(max: int, headers: seq<uint32>, ops: seq<Op>, k: string)
    requires ops != [] && Explained(max, headers, ops[..|ops| - 1], k) && LinkedToPrefix(max, headers, ops, k)
    requires Stores(ops[|ops| - 1], k)
    ensures Explained(max, headers, ops, k)
  {
    var last := ops[|ops| - 1];
    LowerIdempotent(last.key);
    ExpiryExact(last.now, MinTtlSeen(max, headers, ops, |ops| - 1));
  }

  lemma DropExplained(max: int, headers: seq<uint32>, ops: seq<Op>, k: string)
    requires ops != [] && Explained(max, headers, ops[..|ops| - 1], k) && LinkedToPrefix(max, headers, ops, k)
    requires var last := ops[|ops| - 1]; Deletes(last, k) || (last.GetOp? && Lower(last.key) == k)
    ensures Explained(max, headers, ops, k)
  {
  }

  lemma OtherExplained(max: int, headers: seq<uint32>, ops: seq<Op>, k: string)
    requires ops != [] && Explained(max, headers, ops[..|ops| - 1], k) && LinkedToPrefix(max, headers, ops, k)
    requires var last := ops[|ops| - 1]; !Stores(last, k) && !Deletes(last, k) && !(last.GetOp? && Lower(last.key) == k)
    ensures Explained(max, headers, ops, k)
  {
    var before := Exec(max, headers, ops[..|ops| - 1]).table;
    var after := Exec(max, headers, ops).table;
    assert k in after.backend <==> k in before.backend;
    if k in after.backend {
      assert after.backend[k] == before.backend[k];
      var i :| DecidedBy(max, headers, ops[..|ops| - 1], k, i);
      assert DecidedBy(max, headers, ops, k, i);
    }
  }

  /** A Get after any history hits exactly when some Set decides the key and its instant of expiry has not passed. */
  lemma HitIffLive(max: int, headers: seq<uint32>, ops: seq<Op>, key: string, now: int)
    ensures var w := Exec(max, headers, ops);
            Got(w.table, w.headers, key, now).2.Hit?
            <==> exists i: nat :: DecidedBy(max, headers, ops, Lower(key), i) && now <= EntryOf(max, headers, ops, i).expiresAt
  {
    HistoryExplainsTable(max, headers, ops, Lower(key));
  }

  /**
   After such a Get every record of the entry, shared with other keys or not, carries the whole
   seconds that remain of the smallest TTL seen by the deciding Set, however many Gets came between;
   no other record changes.
   */
  lemma TtlAfterHistory(max: int, headers: seq<uint32>, ops: seq<Op>, key: string, now: int, i: nat)
    requires DecidedBy(max, headers, ops, Lower(key), i)
    requires ops[i].now <= now <= ops[i].now + MinTtlSeen(max, headers, ops, i) * SECOND
    ensures var w := Exec(max, headers, ops);
            var (t, h, r) := Got(w.table, w.headers, key, now);
            && t == w.table && r == Hit(ops[i].entry.value) && |h| == |headers|
            && (forall q :: 0 <= q < |h| && q in r.rrs ==>
                  h[q] == (ops[i].now + MinTtlSeen(max, headers, ops, i) * SECOND - now) / SECOND)
            && (forall q :: 0 <= q < |h| && q !in r.rrs ==> h[q] == w.headers[q])
  {
    HistoryExplainsTable(max, headers, ops, Lower(key));
    HeadersKeepLength(max, headers, ops);
    ExpiryExact(ops[i].now, MinTtlSeen(max, headers, ops, i));
    NewTtlExact(ops[i].now, MinTtlSeen(max, headers, ops, i), ops[i].entry.value, now);
  }

  lemma {:induction false} HeadersKeepLength(max: int, headers: seq<uint32>, ops: seq<Op>)
    ensures |Exec(max, headers, ops).headers| == |headers|
  {
    if ops != [] {
      HeadersKeepLength(max, headers, ops[..|ops| - 1]);
    }
  }

  /** One call at a time, the counter is the number of keys, and a positive capacity is never exceeded. */
  lemma {:induction false} SizeIsExact(max: int, headers: seq<uint32>, ops: seq<Op>)
    ensures var t := Exec(max, headers, ops).table;
            t.size == |t.backend| && (max > 0 ==> |t.backend| <= max)
  {
    if ops != [] {
      SizeIsExact(max, headers, ops[..|ops| - 1]);
      var t := Exec(max, headers, ops[..|ops| - 1]).table;
      StepSize(max, t, Exec(max, headers, ops[..|ops| - 1]).headers, ops[|ops| - 1]);
    }
  }

  /** After any history a `Set` is refused exactly for a new key when a positive capacity is filled. */
  lemma RefusedOnlyWhenFull(max: int, headers: seq<uint32>, ops: seq<Op>, key: string)
    ensures var t := Exec(max, headers, ops).table;
            Accepts(max, t, key) <==> max <= 0 || |t.backend| < max || Lower(key) in t.backend
  {
    SizeIsExact(max, headers, ops);
  }

  lemma RemovedSize(t: Table, key: string)
    requires t.size == |t.backend|
    ensures Removed(t, key).size == |Removed(t, key).backend| <= t.size
  {
    if key in t.backend {
      assert (t.backend - {key}).Keys == t.backend.Keys - {key};
      assert |t.backend - {key}| == |(t.backend - {key}).Keys| && |t.backend| == |t.backend.Keys|;
    }
  }

  lemma InsertedSize(t: Table, key: string, e: LEntry)
    requires t.size == |t.backend|
    ensures Inserted(t, key, e).size == |Inserted(t, key, e).backend|
  {
    assert t.backend[key := e].Keys == t.backend.Keys + {key};
    assert |t.backend[key := e]| == |t.backend[key := e].Keys| && |t.backend| == |t.backend.Keys|;
  }

  lemma StepSize(max: int, t: Table, headers: seq<uint32>, op: Op)
    requires t.size == |t.backend| && (max > 0 ==> |t.backend| <= max)
    ensures var t' := Apply(max, World(t, headers), op).table;
            t'.size == |t'.backend| && (max > 0 ==> |t'.backend| <= max)
  {
    if Stores(op, Lower(op.key)) {
      LowerIdempotent(op.key);
      InsertedSize(t, Lower(op.key), LEntry(op.entry.value, ExpiresAt(op.now, MinTtl(headers, op.entry.value))));
    } else {
      RemovedSize(t, op.key);
      RemovedSize(t, Lower(op.key));
    }
  }

  // -------- keys and lifetimes, spelled out --------

  /** Both calls take a key in any spelling of its case. */
  lemma KeysFoldCase(max: int, t: Table, headers: seq<uint32>, key: string, key': string, rrs: seq<nat>, now: int)
    requires SameSpelling(key, key')
    ensures Got(t, headers, key, now) == Got(t, headers, key', now)
    ensures WasSet(max, t, headers, key, Some(rrs), now) == WasSet(max, t, headers, key', Some(rrs), now)
  {
    LowerFoldsCase(key, key');
  }

  /** One record, set in an empty cache: it is served for its TTL in nanoseconds to the last, and not after, with the seconds left. */
  lemma OneRecordLifetime(max: int, headers: seq<uint32>, key: string, r: nat, now: int, elapsed: nat)
    requires r < |headers|
    ensures var t := WasSet(max, EMPTY, headers, key, Some([r]), now);
            var (_, after, result) := Got(t, headers, key, now + elapsed);
            var lifetime: int := 1_000_000_000 * (headers[r] as int);
            if elapsed <= lifetime then result == Hit([r]) && after[r] == (lifetime - elapsed) / 1_000_000_000
            else result == KeyExpired
  {
    assert [r][..0] == [] && MinTtl(headers, []) == MAX_UINT32;
    ExpiryExact(now, headers[r]);
    var t := WasSet(max, EMPTY, headers, key, Some([r]), now);
    assert t.backend[Lower(key)] == LEntry([r], now + headers[r] * SECOND);
    if elapsed <= headers[r] * SECOND {
      NewTtlExact(now, headers[r], [r], now + elapsed);
    }
  }
}

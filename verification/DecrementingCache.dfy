/**
 The older cache (`cache.go`, `MemoryCache`): no instant of expiry is stored; each Get subtracts the
 whole seconds since the last successful Get from every TTL. Records belong to one entry.
 */
module DecrementingCache {
  import opened Text
  import opened Lcache

  /** A cached message: its TTLs (None for a nil message) and the second of its last update. */
  datatype Mesg = Mesg(ttls: Option<seq<uint32>>, blocked: bool, lastUpdate: int)

  datatype PollResult = Served(ttls: seq<uint32>, blocked: bool) | NotFound | Expired

  /** A time truncated to the second. */
  function Second(now: int): int {
    now / SECOND
  }

  /** TTLs after subtraction; a TTL smaller than the elapsed time wraps around. */
  function Decremented(ttls: seq<uint32>, elapsed: uint32): (r: seq<uint32>)
    ensures |r| == |ttls|
  {
    seq(|ttls|, i requires 0 <= i < |ttls| => AsUint32(ttls[i] - elapsed))
  }

  predicate Overdue(ttls: seq<uint32>, elapsed: uint32) {
    exists i :: 0 <= i < |ttls| && elapsed > ttls[i]
  }

  function Polled(b: map<string, Mesg>, key: string, now: int): (map<string, Mesg>, PollResult) {
    var k := Lower(key);
    if k !in b then (b, NotFound)
    else if b[k].ttls.None? then (b - {k}, NotFound)
    else
      var m := b[k];
      var elapsed := AsUint32(Second(now) - m.lastUpdate);
      var ttls := Decremented(m.ttls.value, elapsed);
      if Overdue(m.ttls.value, elapsed) then (b - {k}, Expired)
      else (b[k := Mesg(Some(ttls), m.blocked, Second(now))], Served(ttls, m.blocked))
  }

  class MemoryCache {
    var backend: map<string, Mesg>
    const maxcount: int

    constructor (maxcount: int)
      ensures backend == map[] && this.maxcount == maxcount
    {
      backend := map[];
      this.maxcount := maxcount;
    }

    method Get(key: string, now: int) returns (r: PollResult)
      modifies this
      ensures (backend, r) == Polled(old(backend), key, now)
    {
      var k := Lower(key);
      if k !in backend {
        return NotFound;
      }
      var mesg := backend[k];
      if mesg.ttls.None? {
        backend := backend - {k};
        return NotFound;
      }
      var elapsed := AsUint32(Second(now) - mesg.lastUpdate);
      var ttls := mesg.ttls.value;
      var expired := false;
      for i := 0 to |ttls|
        invariant |ttls| == |mesg.ttls.value|
        invariant forall j :: 0 <= j < i ==> ttls[j] == AsUint32(mesg.ttls.value[j] - elapsed)
        invariant forall j :: i <= j < |ttls| ==> ttls[j] == mesg.ttls.value[j]
        invariant expired <==> exists j :: 0 <= j < i && elapsed > mesg.ttls.value[j]
        invariant backend == if expired then old(backend) - {k} else old(backend)
      {
        if elapsed > ttls[i] {
          backend := backend - {k};
          expired := true;
        }
        ttls := ttls[i := AsUint32(ttls[i] - elapsed)];
      }
      assert ttls == Decremented(mesg.ttls.value, elapsed);
      if expired {
        return Expired;
      }
      backend := backend[k := Mesg(Some(ttls), mesg.blocked, Second(now))];
      return Served(ttls, mesg.blocked);
    }

    method Set(key: string, ttls: Option<seq<uint32>>, blocked: bool, now: int) returns (ok: bool)
      modifies this
      ensures ok <==> !(maxcount != 0 && |old(backend)| >= maxcount && Lower(key) !in old(backend))
      ensures backend == if ok then old(backend)[Lower(key) := Mesg(ttls, blocked, Second(now))] else old(backend)
    {
      var k := Lower(key);
      if maxcount != 0 && |backend| >= maxcount && k !in backend {
        return false;
      }
      backend := backend[k := Mesg(ttls, blocked, Second(now))];
      return true;
    }
  }

  // -------- any polling pattern --------

  datatype Poll = Poll(key: string, now: int)

  function AfterPolls(b: map<string, Mesg>, polls: seq<Poll>): map<string, Mesg> {
    if polls == [] then b
    else
      var p := polls[|polls| - 1];
      Polled(AfterPolls(b, polls[..|polls| - 1]), p.key, p.now).0
  }

  /** The clock does not go backwards, and stays within a uint32 of seconds from the start. */
  predicate Ordered(polls: seq<Poll>, start: int, end: int) {
    && start <= end && Second(end) - Second(start) <= MAX_UINT32
    && (forall i :: 0 <= i < |polls| ==> start <= polls[i].now <= end)
    && (forall i, j :: 0 <= i < j < |polls| ==> polls[i].now <= polls[j].now)
  }

  /** Every TTL of the message, set in second `s`, is at least the time that has passed. */
  predicate InTime(ttls: seq<uint32>, s: int, now: int) {
    forall i :: 0 <= i < |ttls| ==> Second(now) <= s + ttls[i]
  }

  predicate PollsInTime(k: string, ttls: seq<uint32>, s: int, polls: seq<Poll>) {
    forall i :: 0 <= i < |polls| && Lower(polls[i].key) == k ==> InTime(ttls, s, polls[i].now)
  }

  /** A message that was set in second s and polled since: each TTL plus the last update is what it was at the start. */
  predicate Telescoped(ttls: seq<uint32>, s: int, m: Mesg, now: int) {
    && m.ttls.Some? && |m.ttls.value| == |ttls| && s <= m.lastUpdate <= Second(now)
    && forall i :: 0 <= i < |ttls| ==> m.ttls.value[i] + m.lastUpdate == ttls[i] + s
  }

  lemma SecondMonotone(a: int, b: int)
    requires a <= b
    ensures Second(a) <= Second(b)
  {
  }

  /** One poll of a telescoped message: served and telescoped, or removed, exactly as InTime says. */
  lemma PollKeepsSum(b: map<string, Mesg>, key: string, ttls: seq<uint32>, s: int, before: int, now: int)
    requires Lower(key) in b && Telescoped(ttls, s, b[Lower(key)], before)
    requires before <= now && Second(now) - s <= MAX_UINT32
    ensures var (b', r) := Polled(b, key, now);
            if InTime(ttls, s, now)
            then Lower(key) in b' && r == Served(b'[Lower(key)].ttls.value, b[Lower(key)].blocked)
                 && b'[Lower(key)].lastUpdate == Second(now)
                 && Telescoped(ttls, s, b'[Lower(key)], now)
            else Lower(key) !in b' && r == Expired
  {
  }

  /**
   Telescoping: under any polling pattern the entry survives exactly when no poll of its key came too
   late, and while it lives each TTL plus the last-update second is what it was when it was set.
   */
  lemma {:induction false} PollingTelescopes(b: map<string, Mesg>, k: string, ttls: seq<uint32>, start: int, polls: seq<Poll>, end: int)
    requires Lower(k) == k && k in b && Telescoped(ttls, Second(start), b[k], start) && Ordered(polls, start, end)
    ensures var b' := AfterPolls(b, polls);
            && (k in b' <==> PollsInTime(k, ttls, Second(start), polls))
            && (k in b' ==> Telescoped(ttls, Second(start), b'[k], if polls == [] then start else polls[|polls| - 1].now)
                            && b'[k].blocked == b[k].blocked)
  {
    if polls != [] {
      var init := polls[..|polls| - 1];
      var p := polls[|polls| - 1];
      PollingTelescopes(b, k, ttls, start, init, end);
      SecondMonotone(p.now, end);
      var before := if init == [] then start else init[|init| - 1].now;
      assert before <= p.now;
      SecondMonotone(before, p.now);
      assert forall i :: 0 <= i < |init| ==> init[i] == polls[i];
      assert PollsInTime(k, ttls, Second(start), polls)
        <==> PollsInTime(k, ttls, Second(start), init) && (Lower(p.key) == k ==> InTime(ttls, Second(start), p.now));
      var bi := AfterPolls(b, init);
      if Lower(p.key) == k && k in bi {
        PollKeepsSum(bi, p.key, ttls, Second(start), before, p.now);
      }
    }
  }

  // -------- agreement with the absolute-expiry cache --------

  function Ids(n: nat): (ids: seq<nat>)
    ensures |ids| == n && forall i :: 0 <= i < n ==> ids[i] == i
  {
    seq(n, i => i)
  }

  function Least(ttls: seq<uint32>): uint32 {
    MinTtl(ttls, Ids(|ttls|))
  }

  lemma LeastIsLeast(ttls: seq<uint32>)
    requires ttls != []
    ensures forall i :: 0 <= i < |ttls| ==> Least(ttls) <= ttls[i]
    ensures exists i :: 0 <= i < |ttls| && ttls[i] == Least(ttls)
  {
    MinTtlIsLeast(ttls, Ids(|ttls|));
    forall i | 0 <= i < |ttls| ensures Least(ttls) <= ttls[i] {
      assert Ids(|ttls|)[i] in Ids(|ttls|);
    }
  }

  /** The same history for the other cache: one Set, then the polls. */
  function AsOps(k: string, ttls: seq<uint32>, start: int, polls: seq<Poll>): seq<Op> {
    [SetOp(k, Some(Ids(|ttls|)), start)] + seq(|polls|, i requires 0 <= i < |polls| => GetOp(polls[i].key, polls[i].now))
  }

  /** In the absolute-expiry cache the entry is live exactly until `start + least * SECOND`, whatever was polled. */
  lemma AbsoluteLiveness(max: int, k: string, ttls: seq<uint32>, start: int, polls: seq<Poll>, now: int)
    requires Lower(k) == k && Ordered(polls, start, now)
    ensures var ops := AsOps(k, ttls, start, polls);
            var w := Exec(max, ttls, ops);
            var r := Got(w.table, w.headers, k, now);
            && (r.2.Hit? <==> now <= start + Least(ttls) * SECOND)
            && (r.2.Hit? ==> |r.1| == |ttls| && forall i :: 0 <= i < |ttls| ==>
                               r.1[i] == (start + Least(ttls) * SECOND - now) / SECOND)
  {
    var ops := AsOps(k, ttls, start, polls);
    var w := Exec(max, ttls, ops);
    assert ops[..0] == [];
    assert MinTtlSeen(max, ttls, ops, 0) == Least(ttls);
    HitIffLive(max, ttls, ops, k, now);
    assert forall j :: 0 < j < |ops| ==> ops[j].GetOp? && ops[j].now <= now;
    if now <= start + Least(ttls) * SECOND {
      assert DecidedBy(max, ttls, ops, k, 0);
      assert now <= EntryOf(max, ttls, ops, 0).expiresAt;
      TtlAfterHistory(max, ttls, ops, k, now, 0);
      var h := Got(w.table, w.headers, k, now).1;
      forall i | 0 <= i < |ttls| ensures h[i] == (start + Least(ttls) * SECOND - now) / SECOND {
        assert Ids(|ttls|)[i] in Ids(|ttls|);
      }
    }
  }

  lemma FloorFacts(start: int, now: int, ttl: int)
    requires start <= now && 0 <= ttl
    ensures now <= start + ttl * SECOND ==> Second(now) <= Second(start) + ttl
    ensures Second(now) <= Second(start) + ttl ==> now < start + ttl * SECOND + SECOND
    ensures var remaining := Second(start) + ttl - Second(now);
            remaining - 1 <= (start + ttl * SECOND - now) / SECOND <= remaining
  {
  }

  /**
   The two caches agree to within one second. Give both the same answer at `start`, poll both in any
   pattern, and ask at `now`: what the absolute-expiry cache still serves, the decrementing one serves
   too; what the latter serves, the former did less than a second ago; and when both serve, the
   smallest TTL is the same in both or one lower in the former.
   */
  lemma CachesAgree(max: int, b: map<string, Mesg>, k: string, ttls: seq<uint32>, blocked: bool, start: int, polls: seq<Poll>, now: int)
    requires Lower(k) == k && ttls != [] && Ordered(polls, start, now)
    ensures var o := Polled(AfterPolls(b[k := Mesg(Some(ttls), blocked, Second(start))], polls), k, now).1;
            var w := Exec(max, ttls, AsOps(k, ttls, start, polls));
            var (_, h, r) := Got(w.table, w.headers, k, now);
            && (r.Hit? ==> o.Served?)
            && (o.Served? ==> now < start + Least(ttls) * SECOND + SECOND)
            && (r.Hit? ==> |h| == |o.ttls| == |ttls| && forall i :: 0 <= i < |ttls| && ttls[i] == Least(ttls) ==>
                             0 <= (o.ttls[i] as int) - (h[i] as int) <= 1)
  {
    var s := Second(start);
    var b0 := b[k := Mesg(Some(ttls), blocked, s)];
    PollingTelescopes(b0, k, ttls, start, polls, now);
    AbsoluteLiveness(max, k, ttls, start, polls, now);
    LeastIsLeast(ttls);
    FloorFacts(start, now, Least(ttls));
    assert InTime(ttls, s, now) <==> Second(now) <= s + Least(ttls);
    var b1 := AfterPolls(b0, polls);
    if InTime(ttls, s, now) {
      forall i | 0 <= i < |polls| ensures InTime(ttls, s, polls[i].now) {
        SecondMonotone(polls[i].now, now);
      }
      var before := if polls == [] then start else polls[|polls| - 1].now;
      PollKeepsSum(b1, k, ttls, s, before, now);
    } else if k in b1 {
      var before := if polls == [] then start else polls[|polls| - 1].now;
      PollKeepsSum(b1, k, ttls, s, before, now);
    }
  }
}

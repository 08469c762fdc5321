/** Round-robin key rotation with cooldowns, and the retry loop of the proxy in front of it. Times are milliseconds. */
module KeyPool {
  import opened Collections

  function Around(place: nat, slots: nat): (slot: nat)
    requires slots > 0
    ensures slot < slots
  {
    place % slots
  }

  datatype Pool = Pool(keys: seq<string>, cooldown: int, cursor: nat, busyUntil: map<string, int>)
  {
    predicate Valid() {
      keys != [] && cursor < |keys|
    }

    function BusyUntil(key: string): int {
      if key in busyUntil then busyUntil[key] else 0
    }

    predicate Free(slot: nat, now: int)
      requires slot < |keys|
    {
      BusyUntil(keys[slot]) <= now
    }

    /** The slot so many places after the cursor. */
    function SlotAt(offset: nat): (slot: nat)
      requires Valid()
      ensures slot < |keys|
    {
      Around(cursor + offset, |keys|)
    }

    /** The offset of the first free slot from `offset` on; None when all of those are cooling down. */
    function Scan(offset: nat, now: int): (found: Option<nat>)
      requires Valid() && offset <= |keys|
      ensures found.None? ==> forall o :: offset <= o < |keys| ==> !Free(SlotAt(o), now)
      ensures found.Some? ==>
                offset <= found.value < |keys| && Free(SlotAt(found.value), now)
                && forall o :: offset <= o < found.value ==> !Free(SlotAt(o), now)
      decreases |keys| - offset
    {
      if offset == |keys| then None
      else if Free(SlotAt(offset), now) then Some(offset)
      else Scan(offset + 1, now)
    }

    function Acquired(now: int): Option<nat>
      requires Valid()
    {
      match Scan(0, now)
      case None => None
      case Some(offset) => Some(SlotAt(offset))
    }

    function AfterAcquire(now: int): Pool
      requires Valid()
    {
      match Acquired(now)
      case None => this
      case Some(slot) => this.(cursor := Around(slot + 1, |keys|))
    }

    function Benched(key: string, now: int): Pool {
      this.(busyUntil := busyUntil[key := now + cooldown])
    }
  }

  ghost predicate CoolsDown(busyUntil: map<string, int>, key: string, now: int) {
    if key in busyUntil then busyUntil[key] > now else 0 > now
  }

  /** The key in this slot is given out: it is ready, those from the cursor up to it are not, and the cursor moves past it. */
  ghost predicate Takes(
    keys: seq<string>, busyUntil: map<string, int>, cursor: nat, now: int, slot: nat, key: string, next: nat)
  {
    && slot < |keys| && key == keys[slot] && !CoolsDown(busyUntil, key, now)
    && (forall s :: 0 <= s < |keys| && (if cursor <= slot then cursor <= s < slot else s < slot || cursor <= s) ==>
          CoolsDown(busyUntil, keys[s], now))
    && next == if slot + 1 == |keys| then 0 else slot + 1
  }

  lemma AcquiredIsTaken(p: Pool, now: int, n: nat)
    requires p.Valid() && n < |p.keys| && p.Scan(0, now) == Some(n)
    ensures var slot := p.SlotAt(n); Takes(p.keys, p.busyUntil, p.cursor, now, slot, p.keys[slot], Around(slot + 1, |p.keys|))
  {
    var slot := p.SlotAt(n);
    Wrap(p.cursor + n, |p.keys|);
    Wrap(slot + 1, |p.keys|);
    assert Distance(p, slot) == n;
    forall s | 0 <= s < |p.keys| && (if p.cursor <= slot then p.cursor <= s < slot else s < slot || p.cursor <= s)
      ensures CoolsDown(p.busyUntil, p.keys[s], now)
    {
      DistanceReaches(p, s);
      assert Distance(p, s) < n;
      assert !p.Free(p.SlotAt(Distance(p, s)), now);
    }
  }

  lemma NoneIsFree(p: Pool, now: int)
    requires p.Valid() && p.Scan(0, now) == None
    ensures forall k :: k in p.keys ==> CoolsDown(p.busyUntil, k, now)
  {
    NoneIff(p, now);
    forall k | k in p.keys ensures CoolsDown(p.busyUntil, k, now) {
      var slot :| 0 <= slot < |p.keys| && p.keys[slot] == k;
      assert !p.Free(slot, now);
    }
  }

  class RotatingKeys {
    const keys: seq<string>
    const cooldown: int
    var cursor: nat
    var busyUntil: map<string, int>

    function Value(): Pool
      reads this
    {
      Pool(keys, cooldown, cursor, busyUntil)
    }

    constructor (keys: seq<string>, cooldown: int)
      requires keys != []
      ensures Value() == Pool(keys, cooldown, 0, map[])
      ensures this.keys == keys && this.cooldown == cooldown && cursor == 0 && busyUntil == map[]
    {
      this.keys := keys;
      this.cooldown := cooldown;
      cursor := 0;
      busyUntil := map[];
    }

    method Acquire(now: int) returns (key: Option<string>)
      requires Value().Valid()
      modifies this`cursor
      ensures Value() == old(Value()).AfterAcquire(now) && Value().Valid()
      ensures var slot := old(Value()).Acquired(now);
              key == if slot.None? then None else Some(keys[slot.value])
      ensures key.None? ==> cursor == old(cursor) && forall k :: k in keys ==> CoolsDown(busyUntil, k, now)
      ensures key.Some? ==> exists slot :: Takes(keys, busyUntil, old(cursor), now, slot, key.value, cursor)
    {
      var n := |keys|;
      for i := 0 to n
        invariant Value() == old(Value())
        invariant Value().Scan(0, now) == Value().Scan(i, now)
      {
        var idx := (cursor + i) % n;
        var busy := if keys[idx] in busyUntil then busyUntil[keys[idx]] else 0;
        if busy <= now {
          assert Value().Scan(i, now) == Some(i);
          AcquiredIsTaken(Value(), now, i);
          cursor := (idx + 1) % n;
          return Some(keys[idx]);
        }
      }
      NoneIsFree(Value(), now);
      key := None;
    }

    method MarkExhausted(key: string, now: int)
      modifies this`busyUntil
      ensures Value() == old(Value()).Benched(key, now)
      ensures busyUntil == old(busyUntil)[key := now + cooldown]
    {
      busyUntil := busyUntil[key := now + cooldown];
    }
  }

  // -------------------------------------------------------------------------
  // Rotation
  // -------------------------------------------------------------------------

  /** A key is refused exactly when every one is cooling down. */
  lemma NoneIff(p: Pool, now: int)
    requires p.Valid()
    ensures p.Acquired(now) == None <==> forall slot :: 0 <= slot < |p.keys| ==> !p.Free(slot, now)
  {
    if p.Scan(0, now).None? {
      forall slot | 0 <= slot < |p.keys| ensures !p.Free(slot, now) {
        var o := Distance(p, slot);
        DistanceReaches(p, slot);
        assert !p.Free(p.SlotAt(o), now);
      }
    }
  }

  /** How many places after the cursor a slot comes up. */
  function Distance(p: Pool, slot: nat): nat
    requires p.Valid() && slot < |p.keys|
  {
    if slot >= p.cursor then slot - p.cursor else slot + |p.keys| - p.cursor
  }

  lemma Wrap(x: nat, n: nat)
    requires 0 < n && x < 2 * n
    ensures Around(x, n) == if x < n then x else x - n
  {
  }

  lemma DistanceReaches(p: Pool, slot: nat)
    requires p.Valid() && slot < |p.keys|
    ensures Distance(p, slot) < |p.keys| && p.SlotAt(Distance(p, slot)) == slot
  {
    Wrap(p.cursor + Distance(p, slot), |p.keys|);
  }

  /** The slot handed out is the nearest free one. */
  lemma AcquiredIsNearest(p: Pool, now: int, slot: nat)
    requires p.Valid() && slot < |p.keys| && p.Free(slot, now)
    ensures p.Acquired(now).Some? && p.Acquired(now).value < |p.keys|
    ensures p.Free(p.Acquired(now).value, now)
    ensures Distance(p, p.Acquired(now).value) <= Distance(p, slot)
    ensures p.Acquired(now).value != slot ==> Distance(p, p.Acquired(now).value) < Distance(p, slot)
  {
    DistanceReaches(p, slot);
    var o := p.Scan(0, now).value;
    assert o <= Distance(p, slot);
    Wrap(p.cursor + o, |p.keys|);
    assert Distance(p, p.SlotAt(o)) == o;
  }

  /** Acquiring at each of these times, with anything else happening in between that leaves the cursor alone. */
  ghost predicate Turns(pools: seq<Pool>, times: seq<int>) {
    && |pools| == |times| + 1
    && (forall p :: p in pools ==> p.Valid() && p.keys == pools[0].keys)
    && forall i :: 0 <= i < |times| ==> pools[i + 1].cursor == pools[i].AfterAcquire(times[i]).cursor
  }

  /** No free key starves: one that stays free is handed out within as many turns as it is places away. */
  lemma {:induction false} FreeKeyIsServed(pools: seq<Pool>, times: seq<int>, slot: nat)
    requires Turns(pools, times) && slot < |pools[0].keys| && |times| > Distance(pools[0], slot)
    requires forall i :: 0 <= i < |times| ==> pools[i] in pools && pools[i].Free(slot, times[i])
    ensures exists i :: 0 <= i <= Distance(pools[0], slot) && pools[i].Valid() && pools[i].Acquired(times[i]) == Some(slot)
    decreases |times|
  {
    var p := pools[0];
    assert p in pools;
    AcquiredIsNearest(p, times[0], slot);
    var got := p.Acquired(times[0]).value;
    if got == slot {
      assert pools[0].Valid() && pools[0].Acquired(times[0]) == Some(slot);
    } else {
      var next := pools[1];
      assert next in pools && next.cursor == Around(got + 1, |p.keys|);
      Wrap(got + 1, |p.keys|);
      assert Distance(next, slot) < Distance(p, slot);
      assert forall i :: 0 <= i < |times[1..]| ==> pools[1..][i] == pools[i + 1] && times[1..][i] == times[i + 1];
      assert forall q :: q in pools[1..] ==> q in pools;
      FreeKeyIsServed(pools[1..], times[1..], slot);
      var i :|
        0 <= i <= Distance(next, slot) && pools[1..][i].Valid()
        && pools[1..][i].Acquired(times[1..][i]) == Some(slot);
      assert pools[i + 1].Acquired(times[i + 1]) == Some(slot);
    }
  }

  /** With no key cooling down, turns go round the slots in order: any n in a row use each once. */
  lemma {:induction false} FreeKeysRotate(pools: seq<Pool>, times: seq<int>, i: nat)
    requires Turns(pools, times) && i < |times|
    requires forall k, slot :: 0 <= k < |times| && 0 <= slot < |pools[0].keys| ==>
               pools[k] in pools && pools[k].Free(slot, times[k])
    ensures pools[i] in pools && pools[i].cursor == Around(pools[0].cursor + i, |pools[0].keys|)
    ensures pools[i].Acquired(times[i]) == Some(pools[i].cursor)
  {
    hide Around, Pool.Scan, Pool.SlotAt;
    var n := |pools[0].keys|;
    assert pools[0] in pools && pools[0].Free(0, times[0]);
    if i == 0 {
      Wrap(pools[0].cursor, n);
    } else {
      FreeKeysRotate(pools, times, i - 1);
      assert pools[i] in pools && pools[i].Free(0, times[i]);
      RotateOnce(pools[0].cursor + i - 1, n);
    }
    assert pools[i].Free(pools[i].cursor, times[i]);
    AcquiredIsNearest(pools[i], times[i], pools[i].cursor);
  }

  lemma RotateOnce(x: nat, n: nat)
    requires 0 < n
    ensures Around(Around(x, n) + 1, n) == Around(x + 1, n)
  {
    Wrap(x % n + 1, n);
    assert x == n * (x / n) + x % n;
    if x % n + 1 == n {
      assert x + 1 == n * (x / n + 1);
      MultipleModulo(x / n + 1, n, 0);
    } else {
      MultipleModulo(x / n, n, x % n + 1);
    }
  }

  lemma {:induction false} Scales(n: nat, a: nat, b: nat)
    requires a < b
    ensures n * a + n <= n * b
    decreases b
  {
    assert n * b == n * (b - 1) + n;
    if a + 1 < b {
      Scales(n, a, b - 1);
    }
  }

  lemma MultipleModulo(q: nat, n: nat, r: nat)
    requires r < n
    ensures (n * q + r) % n == r
  {
    var x := n * q + r;
    var other := x / n;
    assert x == n * other + x % n;
    if other < q {
      Scales(n, other, q);
    } else if other > q {
      Scales(n, q, other);
    }
  }

  lemma NearbyModulo(a: nat, b: nat, n: nat)
    requires a < b < a + n
    ensures Around(a, n) != Around(b, n)
  {
    var p, q := a / n, b / n;
    assert a == n * p + a % n && b == n * q + b % n;
    ScalesIf(n, p, q);
    ScalesIf(n, q, p);
  }

  lemma ScalesIf(n: nat, a: nat, b: nat)
    ensures a < b ==> n * a + n <= n * b
  {
    if a < b {
      Scales(n, a, b);
    }
  }

  /** As many turns as there are slots, none of them cooling: every slot is used, and none twice. */
  lemma EachSlotOnce(pools: seq<Pool>, times: seq<int>, slot: nat)
    requires Turns(pools, times) && |times| == |pools[0].keys| && slot < |times|
    requires forall k, s :: 0 <= k < |times| && 0 <= s < |times| ==> pools[k] in pools && pools[k].Free(s, times[k])
    ensures exists i :: 0 <= i < |times| && pools[i].Valid() && pools[i].Acquired(times[i]) == Some(slot)
    ensures forall i, j :: 0 <= i < j < |times| ==>
              pools[i] in pools && pools[j] in pools && pools[i].Acquired(times[i]) != pools[j].Acquired(times[j])
  {
    assert pools[0] in pools;
    DistanceReaches(pools[0], slot);
    FreeKeyIsServed(pools, times, slot);
    forall i, j | 0 <= i < j < |times|
      ensures pools[i] in pools && pools[j] in pools && pools[i].Acquired(times[i]) != pools[j].Acquired(times[j])
    {
      FreeKeysRotate(pools, times, i);
      FreeKeysRotate(pools, times, j);
      NearbyModulo(pools[0].cursor + i, pools[0].cursor + j, |times|);
    }
  }
}

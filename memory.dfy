/**
 * `getMemoryUpdater(size)` (the same in src/index.js and src/utils.js): a
 * ring buffer of the detections of the last `size` frames. Each call stores
 * the new frame's detections in the slot under the cursor, advances the
 * cursor modulo the number of slots, and returns all slots concatenated in
 * slot order.
 */
module Memory {
  import opened Detections

  /**
   * Slots the constructor's loop `for (i = 0; i < size; ++i)` pushes: the
   * number of whole i >= 0 below `size`, which is `size` rounded up (a size
   * of 2.5 makes 3 slots) and 0 for a size of at most 0.
   */
  function InitialSlots(size: real): (slots: nat)
    ensures size > 0.0 ==> (slots - 1) as real < size <= slots as real
    ensures size <= 0.0 ==> slots == 0
  {
    if size > 0.0 then -((-size).Floor) else 0
  }

  /**
   * Slots in use once a frame has been stored: `size` rounded up, or 1 when the
   * constructor made none (the first store `memory[0] = dets` then creates
   * slot 0 and the cursor stays at 0).
   */
  function Capacity(size: real): (cap: nat)
    ensures cap >= 1
    ensures cap == 1 || cap == InitialSlots(size)
  {
    if InitialSlots(size) > 1 then InitialSlots(size) else 1
  }

  /** A fractional size rounds up: `memory: 2.5` makes 3 slots, and the cursor then runs modulo 3. */
  lemma FractionalSize()
    ensures InitialSlots(2.5) == 3 && Capacity(2.5) == 3
  {
  }

  /** The cursor after t stores into cap slots: `n = (n + 1) % memory.length`, t times from 0. */
  function Cursor(t: nat, cap: nat): (k: nat)
    requires cap >= 1
    ensures k < cap
  {
    if t == 0 then 0 else if Cursor(t - 1, cap) + 1 == cap then 0 else Cursor(t - 1, cap) + 1
  }

  /** The slots after the frames of h were stored into cap slots from slot 0 on. */
  function Ring(h: seq<seq<Detection>>, cap: nat): (slots: seq<seq<Detection>>)
    requires cap >= 1
    ensures |slots| == cap
  {
    if h == [] then seq(cap, _ => [])
    else Ring(h[..|h| - 1], cap)[Cursor(|h| - 1, cap) := h[|h| - 1]]
  }

  /** `dets = dets.concat(memory[i])` over all slots. */
  function Concat(slots: seq<seq<Detection>>): seq<Detection> {
    if slots == [] then [] else Concat(slots[..|slots| - 1]) + slots[|slots| - 1]
  }

  /** For a cursor at most the slot count, `x % m` only wraps m to 0. */
  lemma ModStep(x: int, m: int)
    requires m >= 1 && 0 <= x <= m
    ensures x % m == if x == m then 0 else x
  {
  }

  /** Frame t goes to slot t % cap. */
  lemma {:induction false} CursorIsMod(t: nat, cap: nat)
    requires cap >= 1
    ensures Cursor(t, cap) == t % cap
  {
    if t > 0 {
      CursorIsMod(t - 1, cap);
      var q := (t - 1) / cap;
      assert t - 1 == cap * q + (t - 1) % cap;
      if (t - 1) % cap + 1 == cap {
        assert t == cap * (q + 1) + 0;
        UniqueRemainder(t, q + 1, 0, cap);
      } else {
        UniqueRemainder(t, q, (t - 1) % cap + 1, cap);
      }
    }
  }

  lemma {:induction false} MulAtLeast(c: int, x: int)
    requires c >= 1 && x >= 1
    ensures c * x >= c
  {
    if x > 1 {
      MulAtLeast(c, x - 1);
      assert c * x == c * (x - 1) + c;
    }
  }

  lemma UniqueRemainder(t: int, q: int, r: int, cap: int)
    requires cap >= 1 && 0 <= r < cap && t == cap * q + r
    ensures t % cap == r
  {
    var q', r' := t / cap, t % cap;
    assert t == cap * q' + r';
    assert cap * (q - q') == r' - r;
    if q > q' {
      MulAtLeast(cap, q - q');
    } else if q < q' {
      MulAtLeast(cap, q' - q);
    }
  }

  /** d stores after frame t the cursor has moved d slots on, wrapping once at most. */
  lemma {:induction false} CursorShift(t: nat, d: nat, cap: nat)
    requires cap >= 1 && d < cap
    ensures Cursor(t + d, cap) == if Cursor(t, cap) + d < cap then Cursor(t, cap) + d else Cursor(t, cap) + d - cap
  {
    if d > 0 {
      CursorShift(t, d - 1, cap);
    }
  }

  /** cap stores later the cursor is back where it was. */
  lemma CursorPeriodic(t: nat, cap: nat)
    requires cap >= 1
    ensures Cursor(t + cap, cap) == Cursor(t, cap)
  {
    CursorShift(t, cap - 1, cap);
  }

  /**
   * What the ring holds: every frame among the last cap frames sits in its
   * own slot `Cursor(t)`, and a slot no frame has reached yet is empty.
   * Together these fix every slot.
   */
  lemma {:induction false} RingContents(h: seq<seq<Detection>>, cap: nat)
    requires cap >= 1
    ensures forall t :: 0 <= t < |h| && |h| - cap <= t ==> Ring(h, cap)[Cursor(t, cap)] == h[t]
    ensures forall k :: |h| <= k < cap ==> Ring(h, cap)[k] == []
  {
    if h != [] {
      var n := |h|;
      var prev := h[..n - 1];
      RingContents(prev, cap);
      forall t | 0 <= t < n && n - cap <= t
        ensures Ring(h, cap)[Cursor(t, cap)] == h[t]
      {
        if t < n - 1 {
          CursorShift(t, n - 1 - t, cap);
          assert prev[t] == h[t];
        }
      }
      forall k | n <= k < cap
        ensures Ring(h, cap)[k] == []
      {
        CursorShift(0, n - 1, cap);
      }
    }
  }

  /** The frame of slot `Cursor(t)` among the last cap frames before m. */
  lemma {:induction false} SameSlotInWindow(t: nat, m: nat, cap: nat) returns (u: nat)
    requires cap >= 1 && t < m
    ensures t <= u < m && m - cap <= u && Cursor(u, cap) == Cursor(t, cap)
    decreases m - t
  {
    if t + cap >= m {
      u := t;
    } else {
      CursorPeriodic(t, cap);
      u := SameSlotInWindow(t + cap, m, cap);
    }
  }

  /**
   * The lifetime of frame t: it is in the pool of the update that stores it
   * and of the cap - 1 updates after it (updates t + 1 .. t + cap, counting
   * from 1), and from then on its slot holds a later frame.
   */
  lemma FrameLifetime(h: seq<seq<Detection>>, cap: nat, t: nat, m: nat)
    requires cap >= 1 && t < m <= |h|
    ensures m <= t + cap ==> Ring(h[..m], cap)[Cursor(t, cap)] == h[t]
    ensures m > t + cap ==> exists u :: t < u < m && Cursor(u, cap) == Cursor(t, cap) && Ring(h[..m], cap)[Cursor(t, cap)] == h[u]
  {
    RingContents(h[..m], cap);
    var u := SameSlotInWindow(t, m, cap);
    assert h[..m][u] == h[u];
  }

  /** With a single slot the pool is the frame just stored. */
  lemma SingleSlotPassesThrough(h: seq<seq<Detection>>)
    requires h != []
    ensures Concat(Ring(h, 1)) == h[|h| - 1]
  {
    var slots := Ring(h, 1);
    assert slots[..0] == [];
    assert [] + slots[0] == slots[0];
  }

  /** While every stored frame is empty, so is the pool. */
  lemma {:induction false} EmptyFramesEmptyPool(h: seq<seq<Detection>>, cap: nat)
    requires cap >= 1
    requires forall t :: 0 <= t < |h| ==> h[t] == []
    ensures forall k :: 0 <= k < cap ==> Ring(h, cap)[k] == []
    ensures Concat(Ring(h, cap)) == []
  {
    if h != [] {
      EmptyFramesEmptyPool(h[..|h| - 1], cap);
    }
    EmptySlotsConcat(Ring(h, cap));
  }

  lemma {:induction false} EmptySlotsConcat(slots: seq<seq<Detection>>)
    requires forall k :: 0 <= k < |slots| ==> slots[k] == []
    ensures Concat(slots) == []
  {
    if slots != [] {
      EmptySlotsConcat(slots[..|slots| - 1]);
    }
  }

  /** The closure returned by `getMemoryUpdater`, with the state it captures. */
  class MemoryUpdater {
    /** `memory`: one list of detections per slot. */
    var memory: seq<seq<Detection>>
    /** `n`: the slot the next frame goes to. */
    var n: int
    /** The `size` the updater was made with. */
    ghost const size: real
    /** Every frame stored so far, oldest first. */
    ghost var frames: seq<seq<Detection>>

    ghost predicate Valid()
      reads this
    {
      && (frames == [] ==> memory == seq(InitialSlots(size), _ => []) && n == 0)
      && (frames != [] ==> memory == Ring(frames, Capacity(size)) && n == Cursor(|frames|, Capacity(size)))
    }

    /** `getMemoryUpdater(size)`: `size` (rounded up) empty slots and the cursor at 0. */
    constructor(size: real)
      ensures Valid() && this.size == size && frames == []
      ensures memory == seq(InitialSlots(size), _ => []) && n == 0
    {
      var slots: seq<seq<Detection>> := [];
      var i := 0;
      while (i as real) < size
        invariant 0 <= i <= InitialSlots(size)
        invariant slots == seq(i, _ => [])
      {
        slots := slots + [[]];
        i := i + 1;
      }
      assert i == InitialSlots(size);
      memory := slots;
      n := 0;
      this.size := size;
      frames := [];
    }

    /** `updateMemory(dets)`: store the frame, advance the cursor, return every slot's detections. */
    method Update(dets: seq<Detection>) returns (pooled: seq<Detection>)
      requires Valid()
      modifies this
      ensures Valid() && frames == old(frames) + [dets]
      ensures memory == Ring(frames, Capacity(size)) && 0 <= n < |memory|
      ensures pooled == Concat(memory)
      ensures Capacity(size) == 1 ==> pooled == dets
    {
      ghost var cap := Capacity(size);
      ghost var h := frames;
      StoreStep(memory, n, h, dets, size);
      if n < |memory| {
        memory := memory[n := dets];
      } else {
        // `memory[0] = dets` on an empty array creates slot 0
        memory := memory + [dets];
      }
      ModStep(n + 1, |memory|);
      n := (n + 1) % |memory|;
      frames := h + [dets];
      pooled := Pool(memory);
      if cap == 1 {
        SingleSlotPassesThrough(frames);
      }
    }
  }

  /** The loop `for (i = 0; i < memory.length; ++i) dets = dets.concat(memory[i])`. */
  method Pool(slots: seq<seq<Detection>>) returns (pooled: seq<Detection>)
    ensures pooled == Concat(slots)
  {
    pooled := [];
    var i := 0;
    while i < |slots|
      invariant 0 <= i <= |slots|
      invariant pooled == Concat(slots[..i])
    {
      assert slots[..i + 1][..i] == slots[..i];
      pooled := pooled + slots[i];
      i := i + 1;
    }
    assert slots[..|slots|] == slots;
  }

  /** The updater's state before a store, as `Valid` states it, becomes the ring with one more frame. */
  lemma StoreStep(memory: seq<seq<Detection>>, n: int, h: seq<seq<Detection>>, dets: seq<Detection>, size: real)
    requires h == [] ==> memory == seq(InitialSlots(size), _ => []) && n == 0
    requires h != [] ==> memory == Ring(h, Capacity(size)) && n == Cursor(|h|, Capacity(size))
    ensures 0 <= n <= |memory|
    ensures n < |memory| ==> memory[n := dets] == Ring(h + [dets], Capacity(size))
    ensures n == |memory| ==> memory + [dets] == Ring(h + [dets], Capacity(size)) && |memory| == 0
  {
    var cap := Capacity(size);
    if h != [] {
      RingStep(h, dets, cap);
    } else if InitialSlots(size) > 0 {
      FirstStore(dets, cap);
      assert memory == seq(cap, _ => []);
    } else {
      FirstStore(dets, 1);
      assert memory == [];
    }
  }

  /** The first store into a fresh ring. */
  lemma FirstStore(dets: seq<Detection>, cap: nat)
    requires cap >= 1
    ensures Ring([dets], cap) == seq(cap, _ => [])[0 := dets]
  {
    assert [dets][..0] == [];
  }

  /** Storing one more frame writes it under the cursor and moves the cursor on by one, wrapping at cap. */
  lemma RingStep(h: seq<seq<Detection>>, dets: seq<Detection>, cap: nat)
    requires cap >= 1
    ensures Ring(h + [dets], cap) == Ring(h, cap)[Cursor(|h|, cap) := dets]
    ensures Cursor(|h| + 1, cap) == if Cursor(|h|, cap) + 1 == cap then 0 else Cursor(|h|, cap) + 1
  {
    assert (h + [dets])[..|h|] == h;
  }
}

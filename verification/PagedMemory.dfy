/** The paged memory itself: RAM and swap buffers, frame lists, page tables, page faults and the
    reads and writes that may straddle pages. Its clients see one flat byte memory per patota. */
module PagedMemory {
  import opened Memory
  import opened CrewTable
  import opened PageTables
  import opened PageLifecycle

  datatype WriteKind = NewWrite | Modification

  function Extra(kind: WriteKind): int {
    if kind.NewWrite? then 1 else 0
  }

  /** A position inside a patota's memory: offset in its page, physical and logical address. */
  datatype Cursor = Cursor(offset: nat, physical: nat, logical: nat)

  function Forward(cur: Cursor, n: nat): Cursor {
    Cursor(cur.offset + n, cur.physical + n, cur.logical + n)
  }

  /** The cursor stands on page `num` of patota `i`, possibly just past its end, and its three parts agree. */
  ghost predicate CursorOn(c: Control, i: nat, num: nat, cur: Cursor, p: nat) {
    && cur.logical == Base(num, p) + cur.offset
    && PhysicalOn(c, Page(i, num), cur, p)
  }

  /** The physical half alone: the cursor points into the frame of the resident page `pg`. */
  ghost predicate PhysicalOn(c: Control, pg: Page, cur: Cursor, p: nat) {
    && Resident(c.patotas, pg)
    && RowAt(c.patotas, pg).ramFrame >= 0
    && cur.offset <= p
    && cur.physical == Base(RowAt(c.patotas, pg).ramFrame, p) + cur.offset
  }

  ghost predicate Live(c: Control, pg: Page) {
    IsPage(c.patotas, pg) && pg !in c.released
  }

  /** The page is resident and was the last one to be touched. */
  ghost predicate Latest(c: Control, pg: Page) {
    Touched(c, pg) && RowAt(c.patotas, pg).stamp == c.counter - 1
  }

  class PagedMemory {
    const pageSize: nat
    const policy: Policy
    const ram: array<Byte>
    const swap: array<Byte>

    var ramUsed: seq<bool>
    var swapUsed: seq<bool>
    var patotas: seq<Patota>
    var hand: nat
    var counter: nat

    ghost var flat: seq<seq<Byte>>
    ghost var ramOwner: seq<Owner>
    ghost var swapOwner: seq<Owner>
    ghost var released: set<Page>
    ghost var touches: seq<Touch>
    ghost var admitted: nat

    ghost function C(): Control
      reads this
    {
      Control(patotas, ramUsed, swapUsed, hand, counter, ramOwner, swapOwner, released, touches, admitted)
    }

    ghost predicate Valid()
      reads this, ram, swap
    {
      && ram != swap
      && pageSize >= 4
      && |ramUsed| > 0
      && MemoryOk(C(), flat, ram[..], swap[..], pageSize)
    }

    constructor (memorySize: nat, swapSize: nat, pageSize: nat, policy: Policy)
      requires 4 <= pageSize <= memorySize
      ensures Valid() && fresh(ram) && fresh(swap)
      ensures this.pageSize == pageSize && this.policy == policy && ram.Length == memorySize
      ensures |ramUsed| == BlockOf(memorySize, pageSize) && |swapUsed| == BlockOf(swapSize, pageSize)
      ensures FreeCount(ramUsed) == |ramUsed| && FreeCount(swapUsed) == |swapUsed|
      ensures patotas == [] && flat == [] && counter == 0
    {
      this.pageSize := pageSize;
      this.policy := policy;
      ram := new Byte[memorySize];
      swap := new Byte[swapSize];
      ramUsed := seq(BlockOf(memorySize, pageSize), _ => false);
      swapUsed := seq(BlockOf(swapSize, pageSize), _ => false);
      patotas, hand, counter := [], 0, 0;
      flat, released, touches, admitted := [], {}, [], 0;
      ramOwner := seq(BlockOf(memorySize, pageSize), _ => Free);
      swapOwner := seq(BlockOf(swapSize, pageSize), _ => Free);
      new;
      AllFree(ramUsed);
      AllFree(swapUsed);
      AddressJoins(memorySize, pageSize);
      AddressJoins(swapSize, pageSize);
      forall f | 0 <= f < |ramOwner| ensures OwnedRam(C(), f) {
      }
      forall s | 0 <= s < |swapOwner| ensures OwnedSwap(C(), s) {
      }
    }

    // ----- Page faults -------------------------------------------------------------------------------

    method Translate(i: nat, logical: nat) returns (physical: nat)
      requires Valid() && Live(C(), Page(i, BlockOf(logical, pageSize)))
      modifies this, ram, swap
      ensures Valid() && flat == old(flat)
      ensures Quiet(old(C()), C())
      ensures CursorOn(C(), i, BlockOf(logical, pageSize), Cursor(OffsetOf(logical, pageSize), physical, logical), pageSize)
      ensures old(Resident(patotas, Page(i, BlockOf(logical, pageSize)))) ==>
                C() == old(C()) && ram[..] == old(ram[..]) && swap[..] == old(swap[..])
      ensures !old(Resident(patotas, Page(i, BlockOf(logical, pageSize)))) ==>
                FaultStep(policy, old(C()), Page(i, BlockOf(logical, pageSize)), C())
      decreases if Resident(patotas, Page(i, BlockOf(logical, pageSize))) then 0 else 1, 3
    {
      var num, offset := BlockOf(logical, pageSize), OffsetOf(logical, pageSize);
      var pg := Page(i, num);
      assert Placed(C(), pg);
      AddressJoins(logical, pageSize);
      var frame := RowAt(patotas, pg).ramFrame;
      if frame == -1 {
        var base := Fault(pg);
        physical := base + offset;
      } else {
        physical := Base(frame, pageSize) + offset;
      }
    }

    method Fault(pg: Page) returns (physical: nat)
      requires Valid() && Faultable(C(), pg)
      modifies this, ram, swap
      ensures Valid() && flat == old(flat)
      ensures FaultStep(policy, old(C()), pg, C()) && Quiet(old(C()), C())
      ensures Resident(patotas, pg) && RowAt(patotas, pg).ramFrame >= 0
      ensures physical == Base(RowAt(patotas, pg).ramFrame, pageSize)
      decreases 1, 2
    {
      ghost var c := C();
      assert Placed(c, pg);
      if FirstFree(ramUsed) < |ramUsed| {
        physical := CopySwapToRam(pg);
        FreeFaultEffect(policy, c, pg, C());
      } else {
        FullMeansOwned(c);
        physical := FreeOneFrame(pg);
        FullFaultEffect(policy, c, pg, C());
      }
    }

    method CopySwapToRam(pg: Page) returns (physical: nat)
      requires Valid() && Faultable(C(), pg) && Placed(C(), pg) && FirstFree(ramUsed) < |ramUsed|
      modifies this, ram, swap
      ensures Valid() && flat == old(flat)
      ensures C() == PageIn(old(C()), pg, FirstFree(old(ramUsed)))
      ensures physical == Base(RowAt(patotas, pg).ramFrame, pageSize)
      decreases 1, 0
    {
      ghost var c := C();
      var s := RowAt(patotas, pg).swapFrame;
      var f := FirstFree(ramUsed);
      PageInOk(c, pg, f, s, flat, ram[..], swap[..], pageSize);
      Copy(ram, Base(f, pageSize), Block(swap[..], s, pageSize));
      EnterFrame(f, pg);
      swapUsed := swapUsed[s := false];
      swapOwner := swapOwner[s := Free];
      assert C() == PageIn(c, pg, f);
      AddressParts(pg.num, 0, pageSize);
      physical := Translate(pg.pat, Base(pg.num, pageSize));
    }

    /** The page is now in RAM frame `f`. */
    method EnterFrame(f: nat, pg: Page)
      requires IsPage(patotas, pg) && f < |ramUsed| == |ramOwner|
      modifies this`ramUsed, this`ramOwner, this`patotas, this`counter, this`touches
      ensures ramUsed == old(ramUsed)[f := true] && ramOwner == old(ramOwner)[f := Of(pg)]
      ensures patotas == SetRow(old(patotas), pg, RowAt(old(patotas), pg).(ramFrame := f, used := 1, stamp := old(counter)))
      ensures counter == old(counter) + 1 && touches == old(touches) + [TouchOf(old(patotas), pg)]
    {
      ramUsed := ramUsed[f := true];
      ramOwner := ramOwner[f := Of(pg)];
      touches := touches + [TouchOf(patotas, pg)];
      patotas := SetRow(patotas, pg, RowAt(patotas, pg).(ramFrame := f, used := 1, stamp := counter));
      counter := counter + 1;
    }

    method FreeOneFrame(pg: Page) returns (physical: nat)
      requires Valid() && Faultable(C(), pg) && FirstFree(ramUsed) == |ramUsed| && AllOwned(C())
      modifies this, ram, swap
      ensures Valid() && flat == old(flat)
      ensures exists v, c1 :: Victim(policy, old(C()), v, c1) && Evicted(c1, pg, v, C())
      ensures Resident(patotas, pg) && RowAt(patotas, pg).ramFrame >= 0
      ensures physical == Base(RowAt(patotas, pg).ramFrame, pageSize)
      decreases 1, 1
    {
      ghost var c := C();
      var v := Select();
      ghost var c1 := C();
      assert Placed(c1, pg) && Placed(c1, v);
      if FirstFree(swapUsed) == |swapUsed| {
        physical := ExchangePages(pg, v);
      } else {
        CopyRamToSwap(v);
        OnlyFree(c1.ramUsed, RowAt(c1.patotas, v).ramFrame);
        assert Placed(C(), pg);
        physical := CopySwapToRam(pg);
      }
      assert Evicted(c1, pg, v, C());
    }

    /** The victim, by the configured policy. */
    method Select() returns (v: Page)
      requires Valid() && FirstFree(ramUsed) == |ramUsed| && AllOwned(C())
      modifies this`patotas, this`hand
      ensures Valid() && Quiet(old(C()), C()) && Resident(patotas, v)
      ensures Victim(policy, old(C()), v, C())
      ensures forall q :: old(IsPage(patotas, q)) ==>
                IsPage(patotas, q) && RowAt(patotas, q).ramFrame == old(RowAt(patotas, q).ramFrame)
    {
      ghost var c := C();
      if policy.Lru? {
        assert OwnedRam(c, 0);
        assert Placed(c, c.ramOwner[0].page);
        assert Resident(patotas, c.ramOwner[0].page);
        v := SelectByLru();
      } else {
        v := SelectByClock();
      }
      VictimEffect(policy, c, v, C());
    }

    static lemma OnlyFree(used: seq<bool>, f: nat)
      requires f < |used| && FirstFree(used) == |used|
      ensures FirstFree(used[f := false]) == f
    {
      assert !used[f := false][f];
      FreeCountUpdate(used, f, false);
    }

    method SelectByLru() returns (v: Page)
      requires StampsOk(C())
      requires exists q :: Resident(patotas, q)
      ensures LruVictim(C(), v)
    {
      var least: int := counter;
      v := Page(0, 0);
      ghost var found := false;
      var i := 0;
      while i < |patotas|
        invariant LruSoFar(C(), Page(i, 0), v, least, found)
      {
        var j := 0;
        while j < |patotas[i].rows|
          invariant LruSoFar(C(), Page(i, j), v, least, found)
        {
          assert IsPage(patotas, Page(i, j));
          if patotas[i].rows[j].ramFrame != -1 {
            assert Stamped(C(), Page(i, j));
            if patotas[i].rows[j].stamp <= least {
              least := patotas[i].rows[j].stamp;
              v := Page(i, j);
              found := true;
            }
          }
          j := j + 1;
        }
        i := i + 1;
      }
      var q :| Resident(patotas, q);
      assert Before(q, Page(i, 0));
    }

    /** The candidate among the resident pages before `at` in walking order. */
    static ghost predicate LruSoFar(c: Control, at: Page, v: Page, least: int, found: bool) {
      && (found ==> Resident(c.patotas, v) && least == RowAt(c.patotas, v).stamp && Before(v, at))
      && (!found ==> least == c.counter)
      && forall q :: Resident(c.patotas, q) && Before(q, at) ==>
           && found
           && (q != v ==>
                 var s, t := RowAt(c.patotas, q).stamp, RowAt(c.patotas, v).stamp;
                 t < s || (t == s && Before(q, v)))
    }

    /** The page that occupies a RAM frame, found by walking all page tables. */
    method FindPageOfFrame(f: nat, ghost owner: Page) returns (pg: Page)
      requires IsPage(patotas, owner) && RowAt(patotas, owner).ramFrame == f
      requires forall q :: IsPage(patotas, q) && RowAt(patotas, q).ramFrame == f ==> q == owner
      ensures pg == owner
    {
      pg := Page(0, 0);
      var i := 0;
      while i < |patotas|
        invariant !Before(owner, Page(i, 0))
      {
        var j := 0;
        while j < |patotas[i].rows|
          invariant !Before(owner, Page(i, j))
        {
          if patotas[i].rows[j].ramFrame == f {
            assert RowAt(patotas, Page(i, j)).ramFrame == f;
            pg := Page(i, j);
            return;
          }
          j := j + 1;
        }
        i := i + 1;
      }
      assert false;
    }

    /** What the clock has done after its hand passed `n` frames, all of which had their bit set. */
    static ghost predicate ClockPassed(c: Control, now: Control, n: nat) {
      var size := |c.ramOwner|;
      var start := ClockStart(c);
      && AllOwned(c)
      && n <= size
      && size > 0
      && now == ClearBits(c, start, n).(hand := now.hand)
      && now.hand <= size
      && (if now.hand < size then now.hand == ClockFrame(start, n, size)
          else start + n == size || (n == 0 && c.hand >= size))
      && (forall d :: 0 <= d < n ==> UseBit(c, ClockFrame(start, d, size)) != 0)
    }

    /** The frame under the hand belongs to the page that owned it when the sweep began, and to no other. */
    static lemma UnderTheHand(c: Control, now: Control, n: nat) returns (v: Page)
      requires FramesOk(c)
      requires ClockPassed(c, now, n) && now.hand < |c.ramOwner|
      ensures c.ramOwner[now.hand] == Of(v)
      ensures IsPage(now.patotas, v) && RowAt(now.patotas, v).ramFrame == now.hand
      ensures forall q :: IsPage(now.patotas, q) && RowAt(now.patotas, q).ramFrame == now.hand ==> q == v
      ensures UseBit(now, now.hand) == RowAt(now.patotas, v).used
    {
      var f := now.hand;
      v := c.ramOwner[f].page;
      assert OwnedRam(c, f);
      ClearBitsOnlyBits(c, ClockStart(c), n);
      forall q | IsPage(now.patotas, q) && RowAt(now.patotas, q).ramFrame == f ensures q == v {
        assert SameHead(c.patotas[q.pat], now.patotas[q.pat]);
        assert IsPage(c.patotas, q);
        assert Placed(c, q);
      }
      assert SameHead(c.patotas[v.pat], now.patotas[v.pat]);
    }

    /** With its bit clear the page is the choice; otherwise the hand may pass it, and it has not been all around yet. */
    static lemma PassOrPick(c: Control, now: Control, n: nat, v: Page)
      requires FramesOk(c)
      requires ClockPassed(c, now, n) && now.hand < |c.ramOwner|
      requires c.ramOwner[now.hand] == Of(v) && IsPage(now.patotas, v) && UseBit(now, now.hand) == RowAt(now.patotas, v).used
      ensures RowAt(now.patotas, v).used == 0 ==> ClockVictim(c, v, n, now.(hand := now.hand + 1))
      ensures RowAt(now.patotas, v).used != 0 ==>
                ClockPassed(c, now.(hand := now.hand + 1,
                                    patotas := SetRow(now.patotas, v, RowAt(now.patotas, v).(used := 0))), n + 1)
    {
      var f, start := now.hand, ClockStart(c);
      OwnersDistinct(c);
      ClearBitsEffect(c, start, n, f);
      if n == |c.ramOwner| {
        assert ClockFrame(start, 0, |c.ramOwner|) == f;
      }
      assert HasPage(ClearBits(c, start, n), f);
    }

    /** At the end of the frame list the hand goes back to its beginning. */
    static lemma WrapTheHand(c: Control, now: Control, n: nat)
      requires ClockPassed(c, now, n) && now.hand == |c.ramOwner|
      ensures ClockPassed(c, now.(hand := 0), n)
    {
    }

    method SelectByClock() returns (v: Page)
      requires Valid() && AllOwned(C())
      modifies this`patotas, this`hand
      ensures Valid()
      ensures exists n :: ClockVictim(old(C()), v, n, C())
    {
      ghost var c := C();
      ghost var n;
      v, n := Sweep();
      ClearBitsOnlyBits(c, ClockStart(c), n);
      OnlyBitsOk(c, C(), flat, ram[..], swap[..], pageSize);
    }

    method Sweep() returns (v: Page, ghost n: nat)
      requires FramesOk(C()) && AllOwned(C()) && |ramUsed| > 0 && hand <= |ramUsed|
      modifies this`patotas, this`hand
      ensures ClockVictim(old(C()), v, n, C())
    {
      ghost var c := C();
      n := 0;
      var picked := false;
      v := Page(0, 0);
      while !picked
        invariant if picked then ClockVictim(c, v, n, C()) else ClockPassed(c, C(), n)
        decreases !picked, |c.ramOwner| - n, hand
      {
        picked, v, n := SweepToEnd(c, n);
        if !picked {
          WrapTheHand(c, C(), n);
          hand := 0;
        }
      }
    }

    /** One sweep from the hand to the end of the frame list, or to the first clear bit. */
    method SweepToEnd(ghost c: Control, ghost n0: nat) returns (picked: bool, v: Page, ghost n: nat)
      requires FramesOk(c)
      requires ClockPassed(c, C(), n0)
      modifies this`patotas, this`hand
      ensures picked ==> ClockVictim(c, v, n, C())
      ensures !picked ==> ClockPassed(c, C(), n) && hand == |c.ramOwner| && hand + n0 == old(hand) + n
    {
      n := n0;
      picked := false;
      v := Page(0, 0);
      while hand < |ramUsed| && !picked
        invariant if picked then ClockVictim(c, v, n, C()) else ClockPassed(c, C(), n)
        invariant !picked ==> hand + n0 == old(hand) + n
        decreases |c.ramOwner| - n, !picked
      {
        picked, v := LookUnderHand(c, n);
        if !picked {
          n := n + 1;
        }
      }
    }

    /** The page under the hand is picked if its bit is clear; otherwise the bit is cleared and the hand moves on. */
    method LookUnderHand(ghost c: Control, ghost n: nat) returns (picked: bool, v: Page)
      requires FramesOk(c)
      requires ClockPassed(c, C(), n) && hand < |c.ramOwner|
      modifies this`patotas, this`hand
      ensures picked ==> ClockVictim(c, v, n, C())
      ensures !picked ==> ClockPassed(c, C(), n + 1) && hand == old(hand) + 1
    {
      ghost var owner := UnderTheHand(c, C(), n);
      v := FindPageOfFrame(hand, owner);
      PassOrPick(c, C(), n, v);
      picked := RowAt(patotas, v).used == 0;
      if !picked {
        patotas := SetRow(patotas, v, RowAt(patotas, v).(used := 0));
      }
      hand := hand + 1;
    }

    static lemma OwnersDistinct(c: Control)
      requires FramesOk(c) && AllOwned(c)
      ensures forall g, h :: 0 <= g < h < |c.ramOwner| ==> c.ramOwner[g] != c.ramOwner[h]
    {
      forall g, h | 0 <= g < h < |c.ramOwner| ensures c.ramOwner[g] != c.ramOwner[h] {
        assert OwnedRam(c, g) && OwnedRam(c, h);
      }
    }

    method CopyRamToSwap(v: Page)
      requires Valid() && Resident(patotas, v) && FirstFree(swapUsed) < |swapUsed|
      requires Placed(C(), v)
      modifies this, swap
      ensures Valid() && flat == old(flat)
      ensures C() == PageOut(old(C()), v, FirstFree(old(swapUsed)))
    {
      ghost var c := C();
      var f := RowAt(patotas, v).ramFrame;
      var s := FirstFree(swapUsed);
      PageOutOk(c, v, f, s, flat, ram[..], swap[..], pageSize);
      Copy(swap, Base(s, pageSize), Block(ram[..], f, pageSize));
      patotas := SetRow(patotas, v, RowAt(patotas, v).(ramFrame := -1, swapFrame := s));
      swapUsed := swapUsed[s := true];
      swapOwner := swapOwner[s := Of(v)];
      ramUsed := ramUsed[f := false];
      ramOwner := ramOwner[f := Free];
    }

    method ExchangePages(pg: Page, v: Page) returns (physical: nat)
      requires Valid() && Faultable(C(), pg) && Resident(patotas, v)
      requires Placed(C(), pg) && Placed(C(), v)
      requires FirstFree(ramUsed) == |ramUsed| && FirstFree(swapUsed) == |swapUsed|
      modifies this, ram, swap
      ensures Valid() && flat == old(flat)
      ensures C() == Exchange(old(C()), pg, v)
      ensures physical == Base(RowAt(patotas, pg).ramFrame, pageSize)
      decreases 1, 0
    {
      ExchangeOk(C(), pg, v, RowAt(patotas, v).ramFrame, RowAt(patotas, pg).swapFrame, flat, ram[..], swap[..], pageSize);
      TradePlaces(pg, v);
      assert Valid();
      AddressParts(pg.num, 0, pageSize);
      physical := Translate(pg.pat, Base(pg.num, pageSize));
    }

    /** The victim leaves through a buffer, the other page takes its frame, and the victim takes that page's. */
    method TradePlaces(pg: Page, v: Page)
      requires IsPage(patotas, pg) && IsPage(patotas, v) && pg != v && ram != swap
      requires |ramOwner| == |ramUsed| && |swapOwner| == |swapUsed|
      requires 0 <= RowAt(patotas, v).ramFrame < |ramUsed| && 0 <= RowAt(patotas, pg).swapFrame < |swapUsed|
      requires Base(RowAt(patotas, v).ramFrame, pageSize) + pageSize <= ram.Length
      requires Base(RowAt(patotas, pg).swapFrame, pageSize) + pageSize <= swap.Length
      requires FirstFree(ramUsed) == |ramUsed| && FirstFree(swapUsed) == |swapUsed|
      modifies this`ramUsed, this`ramOwner, this`swapUsed, this`swapOwner, this`patotas, this`counter, this`touches, ram, swap
      ensures C() == Exchange(old(C()), pg, v)
      ensures var f, s := old(RowAt(patotas, v).ramFrame), old(RowAt(patotas, pg).swapFrame);
        && ram[..] == Splice(old(ram[..]), Base(f, pageSize), Block(old(swap[..]), s, pageSize))
        && swap[..] == Splice(old(swap[..]), Base(s, pageSize), Block(old(ram[..]), f, pageSize))
    {
      ghost var c := C();
      var f := RowAt(patotas, v).ramFrame;
      var saved := Block(ram[..], f, pageSize);
      ramUsed := ramUsed[f := false];
      patotas := SetRow(patotas, v, RowAt(patotas, v).(ramFrame := -1));

      var s := RowAt(patotas, pg).swapFrame;
      var g := FirstFree(ramUsed);
      OnlyFree(c.ramUsed, f);
      Copy(ram, Base(g, pageSize), Block(swap[..], s, pageSize));
      EnterFrame(g, pg);
      swapUsed := swapUsed[s := false];

      var t := FirstFree(swapUsed);
      OnlyFree(c.swapUsed, s);
      Copy(swap, Base(t, pageSize), saved);
      patotas := SetRow(patotas, v, RowAt(patotas, v).(swapFrame := t));
      swapUsed := swapUsed[t := true];
      swapOwner := swapOwner[t := Of(v)];
      assert ramUsed == c.ramUsed && swapUsed == c.swapUsed;
      ExchangeRows(c.patotas, pg, v, f, s, c.counter);
    }

    /** Updating the victim's row in two steps around the update of the other row. */
    static lemma ExchangeRows(ps: seq<Patota>, pg: Page, v: Page, f: int, s: int, stamp: int)
      requires IsPage(ps, pg) && IsPage(ps, v) && pg != v
      ensures
        var p1 := SetRow(ps, v, RowAt(ps, v).(ramFrame := -1));
        var p2 := SetRow(p1, pg, RowAt(p1, pg).(ramFrame := f, used := 1, stamp := stamp));
        var p3 := SetRow(p2, v, RowAt(p2, v).(swapFrame := s));
        p3 == SetRow(SetRow(ps, v, RowAt(ps, v).(ramFrame := -1, swapFrame := s)), pg,
                     RowAt(ps, pg).(ramFrame := f, used := 1, stamp := stamp))
    {
      var p1 := SetRow(ps, v, RowAt(ps, v).(ramFrame := -1));
      var r := RowAt(p1, pg).(ramFrame := f, used := 1, stamp := stamp);
      var rv := RowAt(ps, v).(ramFrame := -1, swapFrame := s);
      SetRowCommute(p1, pg, r, v, rv);
      SetRowOver(ps, v, RowAt(ps, v).(ramFrame := -1), rv);
    }

    // ----- Patotas come and go ------------------------------------------------------------------------

    predicate HasFreeFrames(frames: nat)
      reads this
    {
      var inRam := FreeCount(ramUsed);
      inRam >= frames || FreeCount(swapUsed) >= frames - inRam
    }

    /** Enters a patota with `pages` pages into the list, each in the first free frame, RAM first. */
    method AddPatota(pid: Word, pages: nat, taskSize: nat)
      requires Valid() && HasFreeFrames(pages)
      requires forall i :: 0 <= i < |patotas| ==> patotas[i].pid != pid
      modifies this
      ensures Valid() && counter == old(counter) && released == old(released)
      ensures |ramUsed| == old(|ramUsed|) && |swapUsed| == old(|swapUsed|)
      ensures |patotas| == |old(patotas)| + 1 && patotas[..|old(patotas)|] == old(patotas)
      ensures var p := patotas[|old(patotas)|];
        && p == Patota(pid, p.rows, taskSize, 0, [], [])
        && |p.rows| == pages
        && (forall j :: 0 <= j < pages ==> p.rows[j].occupants == 0)
        && AllPlaced(p.rows, old(ramUsed), old(swapUsed), counter)
      ensures TakenBoth(old(ramUsed), old(swapUsed), pages, ramUsed, swapUsed) && hand == old(hand)
      ensures |flat| == |old(flat)| + 1 && flat[..|old(flat)|] == old(flat)
      ensures |flat[|old(flat)|]| == Base(pages, pageSize)
    {
      var p := Patota(pid, [], taskSize, 0, [], []);
      ghost var c0 := C();
      AddEmptyOk(c0, p, flat, ram[..], swap[..], pageSize);
      ghost var c, line;
      var rows;
      rows, c, line := AddRows(p, pages);
      patotas := patotas + [p.(rows := rows)];
      ramOwner, swapOwner, admitted := c.ramOwner, c.swapOwner, c.admitted;
      flat := flat + [line];
      assert C() == c;
      assert ContentOk(c, flat, ram[..], swap[..], pageSize);
      assert |flat[|old(flat)|]| == Base(|c.patotas[|old(patotas)|].rows|, pageSize);
    }

    /** The loop of the admission; the patota enters the list only afterwards. */
    method AddRows(p: Patota, pages: nat) returns (rows: seq<Row>, ghost c: Control, ghost line: seq<Byte>)
      requires MemoryOk(AddEmpty(C(), p), flat + [[]], ram[..], swap[..], pageSize) && p.rows == []
      requires FreeCount(ramUsed) + FreeCount(swapUsed) >= pages
      modifies this`ramUsed, this`swapUsed
      ensures Admitting(old(C()), c, p, rows) && c.ramUsed == ramUsed && c.swapUsed == swapUsed
      ensures MemoryOk(c, flat + [line], ram[..], swap[..], pageSize)
      ensures |rows| == pages && forall j :: 0 <= j < pages ==> rows[j].occupants == 0
      ensures AllPlaced(rows, old(ramUsed), old(swapUsed), counter)
      ensures TakenBoth(old(ramUsed), old(swapUsed), pages, ramUsed, swapUsed)
    {
      hide FirstPlaced, TakenBoth;
      rows := [];
      ghost var c0 := C();
      c, line := AddEmpty(c0, p), [];
      NoneTaken(ramUsed, swapUsed);
      for k := 0 to pages
        invariant AllPlaced(rows, old(ramUsed), old(swapUsed), counter)
        invariant TakenBoth(old(ramUsed), old(swapUsed), k, ramUsed, swapUsed)
        invariant ramUsed == c.ramUsed && swapUsed == c.swapUsed
        invariant |rows| == k && forall j :: 0 <= j < k ==> rows[j].occupants == 0
        invariant Admitting(c0, c, p, rows)
        invariant MemoryOk(c, flat + [line], ram[..], swap[..], pageSize)
        invariant FreeCount(c.ramUsed) + FreeCount(c.swapUsed) >= pages - k
      {
        AdmitStep(c0, c, p, rows, flat, line, ram[..], swap[..], pageSize);
        line := line + NewPageBytes(c, ram[..], swap[..], pageSize);
        c := AddRow(c);
        NextPlaced(old(ramUsed), old(swapUsed), k, ramUsed, swapUsed, counter);
        var row := TakeFreeFrame();
        rows := rows + [row];
      }
    }

    method TakeFreeFrame() returns (row: Row)
      requires FreeCount(ramUsed) + FreeCount(swapUsed) > 0
      modifies this`ramUsed, this`swapUsed
      ensures row == NewRow(old(ramUsed), old(swapUsed), counter)
      ensures if row.ramFrame != -1
              then ramUsed == old(ramUsed)[row.ramFrame := true] && swapUsed == old(swapUsed)
              else ramUsed == old(ramUsed) && swapUsed == old(swapUsed)[row.swapFrame := true]
    {
      if FreeCount(ramUsed) > 0 {
        var f := FirstFree(ramUsed);
        ramUsed := ramUsed[f := true];
        row := Row(f, -1, counter, 1, 0);
      } else {
        var s := FirstFree(swapUsed);
        swapUsed := swapUsed[s := true];
        row := Row(-1, s, -1, -1, 0);
      }
    }

    /** Changes what a patota's entry records besides its pid and its rows. */
    method SetHead(i: nat, p: Patota)
      requires Valid() && i < |patotas| && p.pid == patotas[i].pid && p.rows == patotas[i].rows
      modifies this`patotas
      ensures Valid() && patotas == old(patotas)[i := p]
    {
      SameRowsOk(C(), patotas[i := p], flat, ram[..], swap[..], pageSize);
      patotas := patotas[i := p];
    }

    /** A member leaves page `num` of patota `i`. */
    method Leave(i: nat, num: nat)
      requires Valid() && Live(C(), Page(i, num)) && Placed(C(), Page(i, num))
      modifies this
      ensures Valid() && flat == old(flat)
      ensures C() == LeavePage(old(C()), Page(i, num))
    {
      ghost var pg := Page(i, num);
      LeavePageOk(C(), pg, flat, ram[..], swap[..], pageSize);
      var r := patotas[i].rows[num];
      r := r.(occupants := r.occupants - 1);
      if r.occupants == 0 {
        released := released + {pg};
        if r.ramFrame == -1 {
          swapUsed := swapUsed[r.swapFrame := false];
          swapOwner := swapOwner[r.swapFrame := Free];
          r := r.(swapFrame := -1);
        } else {
          ramUsed := ramUsed[r.ramFrame := false];
          ramOwner := ramOwner[r.ramFrame := Free];
          r := r.(ramFrame := -1);
        }
      }
      patotas := SetRow(patotas, Page(i, num), r);
    }

    /** The same, as seen by the patota's occupants. */
    method LeaveLive(i: nat, num: nat)
      requires Valid() && Live(C(), Page(i, num))
      modifies this
      ensures Valid() && flat == old(flat)
      ensures PagesLeft(old(C()), C(), i, num, num + 1)
    {
      assert Placed(C(), Page(i, num));
      LeaveEffect(C(), i, num);
      Leave(i, num);
    }

    /** Releases every frame that the rows of patota `i` name, and takes the patota off the list. */
    method Remove(i: nat)
      requires Valid() && i < |patotas|
      modifies this
      ensures C() == RemovePatota(old(C()), i)
      ensures flat == old(flat)[..i] + old(flat)[i + 1..]
      ensures old(NoStaleClash(C(), i)) ==> Valid()
      ensures LiveFramesUsed(C()) <==> old(NoStaleClash(C(), i))
    {
      ghost var c := C();
      RowsInRange(c, i);
      RemoveRightIff(c, i);
      if NoStaleClash(c, i) {
        RemoveOk(c, i, flat, ram[..], swap[..], pageSize);
      }
      ghost var after := RemovePatota(c, i);
      FreeRows(i);
      patotas := patotas[..i] + patotas[i + 1..];
      ramOwner, swapOwner, released := after.ramOwner, after.swapOwner, after.released;
      flat := flat[..i] + flat[i + 1..];
      assert C() == after;
    }

    /** The walk over the page table that marks frames as free. */
    method FreeRows(i: nat)
      requires i < |patotas|
      requires forall k :: 0 <= k < |patotas[i].rows| ==>
                 -1 <= RamFrames(patotas[i].rows)[k] < |ramUsed| && -1 <= SwapFrames(patotas[i].rows)[k] < |swapUsed|
      modifies this`ramUsed, this`swapUsed
      ensures ramUsed == FreeAll(old(ramUsed), RamFrames(patotas[i].rows))
      ensures swapUsed == FreeAll(old(swapUsed), SwapFrames(patotas[i].rows))
    {
      var rows := patotas[i].rows;
      ghost var rams, swaps := RamFrames(rows), SwapFrames(rows);
      for k := 0 to |rows|
        invariant ramUsed == FreeAll(old(ramUsed), rams[..k])
        invariant swapUsed == FreeAll(old(swapUsed), swaps[..k])
      {
        assert rams[..k + 1][..k] == rams[..k] && swaps[..k + 1][..k] == swaps[..k];
        if rows[k].ramFrame != -1 {
          ramUsed := ramUsed[rows[k].ramFrame := false];
        }
        if rows[k].swapFrame != -1 {
          swapUsed := swapUsed[rows[k].swapFrame := false];
        }
      }
      assert rams[..|rows|] == rams && swaps[..|rows|] == swaps;
    }

    // ----- Reads and writes --------------------------------------------------------------------------

    /** The row of a patota's table that names RAM frame `f`, or the length of the table. */
    static function FindRowByFrame(rows: seq<Row>, f: int): (j: nat)
      ensures j <= |rows|
      ensures forall k :: 0 <= k < j ==> rows[k].ramFrame != f
      ensures j < |rows| ==> rows[j].ramFrame == f
    {
      if rows == [] || rows[0].ramFrame == f then 0 else 1 + FindRowByFrame(rows[1..], f)
    }

    /** Records a touch of the page of patota `i` that sits in RAM frame `f`. */
    method TouchFrame(f: nat, kind: WriteKind, i: nat, ghost num: nat)
      requires Valid() && Resident(patotas, Page(i, num)) && RowAt(patotas, Page(i, num)).ramFrame == f
      modifies this
      ensures Valid() && flat == old(flat)
      ensures C() == TouchPage(old(C()), Page(i, num), Extra(kind))
    {
      TouchOk(C(), Page(i, num), Extra(kind), flat, ram[..], swap[..], pageSize);
      OneRowPerFrame(C(), i, num, f);
      StampRow(f, kind, i, num);
    }

    /** No other row of the table names the frame, and the frame is marked as used. */
    static lemma OneRowPerFrame(c: Control, i: nat, num: nat, f: nat)
      requires FramesOk(c) && IsPage(c.patotas, Page(i, num)) && RowAt(c.patotas, Page(i, num)).ramFrame == f
      ensures FindRowByFrame(c.patotas[i].rows, f) == num
      ensures f < |c.ramUsed| && c.ramUsed[f]
    {
      var j := FindRowByFrame(c.patotas[i].rows, f);
      assert j <= num by {
        assert c.patotas[i].rows[num] == RowAt(c.patotas, Page(i, num));
      }
      assert RowAt(c.patotas, Page(i, j)).ramFrame == f;
      assert Placed(c, Page(i, num)) && Placed(c, Page(i, j)) && OwnedRam(c, f);
    }

    method StampRow(f: nat, kind: WriteKind, i: nat, ghost num: nat)
      requires IsPage(patotas, Page(i, num)) && FindRowByFrame(patotas[i].rows, f) == num
      requires f < |ramUsed| && ramUsed[f]
      modifies this`patotas, this`ramUsed, this`counter, this`touches
      ensures C() == TouchPage(old(C()), Page(i, num), Extra(kind))
    {
      var j := FindRowByFrame(patotas[i].rows, f);
      var r := patotas[i].rows[j];
      touches := touches + [TouchOf(patotas, Page(i, j))];
      match kind {
        case NewWrite =>
          ramUsed := ramUsed[f := true];
          patotas := SetRow(patotas, Page(i, j), r.(stamp := counter, used := 1, occupants := r.occupants + 1));
        case Modification =>
          patotas := SetRow(patotas, Page(i, j), r.(stamp := counter, used := 1));
      }
      counter := counter + 1;
      assert ramUsed == old(ramUsed);
    }

    /** Places a cursor at a logical address, faulting its page in if need be, and records the touch. */
    method Seek(i: nat, logical: nat, kind: WriteKind, ghost num: nat, ghost offset: nat) returns (cur: Cursor)
      requires Valid() && Live(C(), Page(i, num)) && logical == Base(num, pageSize) + offset && offset < pageSize
      modifies this, ram, swap
      ensures Valid() && flat == old(flat)
      ensures cur.logical == logical && cur.offset == offset
      ensures CursorOn(C(), i, num, cur, pageSize)
      ensures Follows(old(C()), C(), i, num - 1, num, Extra(kind))
      ensures Entered(policy, old(C()), Page(i, num), Extra(kind), C())
      ensures Latest(C(), Page(i, num)) && C().counter > old(counter)
    {
      ghost var c := C();
      AddressParts(num, offset, pageSize);
      var physical := Translate(i, logical);
      ghost var c1 := C();
      AddressParts(RowAt(patotas, Page(i, num)).ramFrame, offset, pageSize);
      TouchFrame(BlockOf(physical, pageSize), kind, i, num);
      cur := Cursor(OffsetOf(logical, pageSize), physical, logical);
      QuietFollows(c, c1, i, num - 1, Extra(kind));
      FollowsTrans(c, c1, C(), i, num - 1, num - 1, num, Extra(kind));
    }

    /** Copies `data` to the resident page `pg`, at logical address `at` of its patota. */
    method Poke(physical: nat, data: seq<Byte>, ghost pg: Page, ghost offset: nat, ghost at: nat)
      requires Valid() && PhysicalOn(C(), pg, Cursor(offset, physical, 0), pageSize)
      requires offset + |data| <= pageSize && at == Base(pg.num, pageSize) + offset
      modifies this`flat, ram
      ensures Valid() && C() == old(C())
      ensures Wrote(old(flat), flat, pg.pat, at, data)
    {
      WriteOk(C(), pg, RowAt(patotas, pg).ramFrame, physical, at, offset, data, flat, ram[..], swap[..], pageSize);
      Copy(ram, physical, data);
      flat := flat[pg.pat := Splice(flat[pg.pat], at, data)];
    }

    /** Copies `n` bytes from the resident page `pg`, at logical address `at` of its patota. */
    method Peek(physical: nat, n: nat, ghost pg: Page, ghost offset: nat, ghost at: nat) returns (data: seq<Byte>)
      requires Valid() && PhysicalOn(C(), pg, Cursor(offset, physical, 0), pageSize)
      requires offset + n <= pageSize && at == Base(pg.num, pageSize) + offset
      ensures pg.pat < |flat| && at + n <= |flat[pg.pat]|
      ensures data == flat[pg.pat][at..at + n]
    {
      ReadOk(C(), pg, offset, n, flat, ram[..], swap[..], pageSize);
      data := ram[physical..physical + n];
      assert ram[..][physical..physical + n] == ram[physical..physical + n];
    }

    /** Stores the four bytes of a word at the cursor. The physical half of the cursor is taken at its word: it
        decides where the first bytes go, whatever page is now in that frame. */
    method StoreWord(data: seq<Byte>, cur: Cursor, kind: WriteKind, i: nat, ghost num: nat, ghost g: Page)
      returns (next: Cursor, ghost num': nat)
      requires |data| == 4
      requires Valid() && PhysicalOn(C(), g, cur, pageSize)
      requires cur.logical == Base(num, pageSize) + cur.offset
      requires Readable(C(), i, cur.logical, cur.logical + 4, pageSize)
      modifies this, ram, swap
      ensures Valid() && num' == NumAfterWord(cur, num, pageSize)
      ensures StoredWord(old(C()), C(), old(flat), flat, data, cur, next, kind, i, num, g, pageSize)
    {
      num' := NumAfterWord(cur, num, pageSize);
      if cur.offset + 4 > pageSize {
        next := StoreAcross(data, cur, kind, i, num, g);
      } else {
        Poke(cur.physical, data, g, cur.offset, Base(g.num, pageSize) + cur.offset);
        next := Forward(cur, 4);
      }
    }

    /** The same with both halves of the cursor on the same page, inside a readable stretch. */
    method WriteWord(data: seq<Byte>, cur: Cursor, kind: WriteKind, i: nat, ghost num: nat, ghost from: nat, ghost to: nat)
      returns (next: Cursor, ghost num': nat)
      requires |data| == 4 && from <= cur.logical && cur.logical + 4 <= to
      requires Valid() && CursorOn(C(), i, num, cur, pageSize) && Readable(C(), i, from, to, pageSize)
      modifies this, ram, swap
      ensures Valid() && Readable(C(), i, from, to, pageSize)
      ensures Stepped(old(C()), C(), i, num, num', cur, next, 4, kind, pageSize)
      ensures Wrote(old(flat), flat, i, cur.logical, data)
    {
      next, num' := StoreWord(data, cur, kind, i, num, Page(i, num));
      StoredHere(old(C()), C(), old(flat), flat, data, cur, next, kind, i, num, pageSize);
      ReadableKept(old(C()), C(), i, num, num', Extra(kind), from, to, pageSize);
    }

    /** The case of a word that does not fit in what is left of the page. */
    method StoreAcross(data: seq<Byte>, cur: Cursor, kind: WriteKind, i: nat, ghost num: nat, ghost g: Page) returns (next: Cursor)
      requires |data| == 4
      requires Valid() && PhysicalOn(C(), g, cur, pageSize)
      requires cur.logical == Base(num, pageSize) + cur.offset
      requires cur.offset + 4 > pageSize && Readable(C(), i, cur.logical, cur.logical + 4, pageSize)
      modifies this, ram, swap
      ensures Valid()
      ensures StoredWord(old(C()), C(), old(flat), flat, data, cur, next, kind, i, num, g, pageSize)
    {
      ghost var c, f0 := C(), flat;
      var left := pageSize - cur.offset;
      ReadableNext(C(), i, num, cur, 4, pageSize);
      Poke(cur.physical, data[..left], g, cur.offset, Base(g.num, pageSize) + cur.offset);
      ghost var f1 := flat;
      next := StoreAtPageStart(data[left..], cur.logical + left, kind, i, num + 1);
      StoredInTwo(c, C(), f0, f1, flat, data, cur, next, kind, i, num, g, pageSize);
    }

    method StoreAtPageStart(data: seq<Byte>, logical: nat, kind: WriteKind, i: nat, ghost num: nat) returns (next: Cursor)
      requires |data| <= 4 && Valid() && Live(C(), Page(i, num)) && logical == Base(num, pageSize)
      modifies this, ram, swap
      ensures Valid() && CursorOn(C(), i, num, next, pageSize) && next.offset == |data|
      ensures Follows(old(C()), C(), i, num - 1, num, Extra(kind))
      ensures Wrote(old(flat), flat, i, logical, data)
    {
      var start := Seek(i, logical, kind, num, 0);
      Poke(start.physical, data, Page(i, num), 0, logical);
      next := Forward(start, |data|);
    }

    method LoadWord(cur: Cursor, kind: WriteKind, i: nat, ghost num: nat, ghost from: nat, ghost to: nat)
      returns (data: seq<Byte>, next: Cursor, ghost num': nat)
      requires from <= cur.logical && cur.logical + 4 <= to
      requires Valid() && CursorOn(C(), i, num, cur, pageSize) && Readable(C(), i, from, to, pageSize)
      modifies this, ram, swap
      ensures Valid() && flat == old(flat) && num' == NumAfterWord(cur, num, pageSize)
      ensures Readable(C(), i, from, to, pageSize)
      ensures Stepped(old(C()), C(), i, num, num', cur, next, 4, kind, pageSize)
      ensures |data| == 4 && i < |flat| && cur.logical + 4 <= |flat[i]|
      ensures data == flat[i][cur.logical..cur.logical + 4]
      ensures cur.offset + 4 <= pageSize ==> C() == old(C())
      ensures cur.offset + 4 > pageSize ==>
                Entered(policy, old(C()), Page(i, num + 1), Extra(kind), C())
      ensures Went(policy, old(C()), C(), i, num, num', kind)
    {
      hide Entered, FramesOk, StampsOk, Route;
      num' := NumAfterWord(cur, num, pageSize);
      if cur.offset + 4 > pageSize {
        var low, high;
        low, high, next := LoadAcross(cur, kind, i, num);
        data := low + high;
        SliceJoin(flat[i], cur.logical, cur.logical + |low|, cur.logical + 4, low, high);
        WentOne(policy, old(C()), C(), i, num, kind);
      } else {
        data := Peek(cur.physical, 4, Page(i, num), cur.offset, cur.logical);
        next := Forward(cur, 4);
        FollowsSelf(C(), i, num, Extra(kind));
        RouteNone(policy, C(), i, num + 1);
      }
      ReadableKept(old(C()), C(), i, num, num', Extra(kind), from, to, pageSize);
    }

    /** The case of a word that straddles two pages. */
    method LoadAcross(cur: Cursor, kind: WriteKind, i: nat, ghost num: nat) returns (low: seq<Byte>, high: seq<Byte>, next: Cursor)
      requires Valid() && CursorOn(C(), i, num, cur, pageSize)
      requires cur.offset + 4 > pageSize && Readable(C(), i, cur.logical, cur.logical + 4, pageSize)
      modifies this, ram, swap
      ensures Valid() && flat == old(flat)
      ensures next.logical == cur.logical + 4 && next.offset > 0
      ensures CursorOn(C(), i, num + 1, next, pageSize)
      ensures Follows(old(C()), C(), i, num, num + 1, Extra(kind))
      ensures |low| <= 4 && i < |flat| && cur.logical + 4 <= |flat[i]|
      ensures low == flat[i][cur.logical..cur.logical + |low|]
      ensures high == flat[i][cur.logical + |low|..cur.logical + 4]
      ensures Entered(policy, old(C()), Page(i, num + 1), Extra(kind), C())
    {
      hide Entered, FramesOk, StampsOk;
      var left := pageSize - cur.offset;
      ReadableNext(C(), i, num, cur, 4, pageSize);
      low := Peek(cur.physical, left, Page(i, num), cur.offset, cur.logical);
      high, next := LoadAtPageStart(4 - left, cur.logical + left, kind, i, num + 1);
    }

    method LoadAtPageStart(n: nat, logical: nat, kind: WriteKind, i: nat, ghost num: nat) returns (data: seq<Byte>, next: Cursor)
      requires n <= 4 && Valid() && Live(C(), Page(i, num)) && logical == Base(num, pageSize)
      modifies this, ram, swap
      ensures Valid() && flat == old(flat)
      ensures CursorOn(C(), i, num, next, pageSize) && next.offset == n
      ensures Follows(old(C()), C(), i, num - 1, num, Extra(kind))
      ensures i < |flat| && logical + n <= |flat[i]| && data == flat[i][logical..logical + n]
      ensures Entered(policy, old(C()), Page(i, num), Extra(kind), C())
    {
      var start := Seek(i, logical, kind, num, 0);
      data := Peek(start.physical, n, Page(i, num), 0, logical);
      next := Forward(start, n);
    }

    /** Reads the word at a cursor that will be used again, and tells whose frame the cursor points into afterwards. */
    method LoadCounter(cur: Cursor, i: nat, ghost num: nat) returns (data: seq<Byte>, ghost g: Page)
      requires Valid() && CursorOn(C(), i, num, cur, pageSize)
      requires Readable(C(), i, cur.logical, cur.logical + 4, pageSize)
      modifies this, ram, swap
      ensures Valid() && flat == old(flat) && Quiet(old(C()), C())
      ensures |data| == 4 && i < |flat| && cur.logical + 4 <= |flat[i]|
      ensures data == flat[i][cur.logical..cur.logical + 4]
      ensures Readable(C(), i, cur.logical, cur.logical + 4, pageSize)
      ensures PhysicalOn(C(), g, cur, pageSize)
      ensures g == if cur.offset + 4 > pageSize && Displaced(policy, old(C()), i, num) then Page(i, num + 1) else Page(i, num)
    {
      ghost var c := C();
      ghost var next, num1;
      data, next, num1 := LoadWord(cur, Modification, i, num, cur.logical, cur.logical + 4);
      g := Page(i, num);
      if cur.offset + 4 > pageSize {
        AfterEntering(policy, c, i, num, cur, 0, C(), pageSize);
        if Displaced(policy, c, i, num) {
          g := Page(i, num + 1);
        }
      }
      FollowsQuiet(c, C(), i, num, num1);
    }

    /** Increments the word at the cursor: the cursor is saved, the word is read, and the result is written
        at the saved cursor, whose physical half the read may have made stale. */
    method BumpWord(cur: Cursor, i: nat, ghost num: nat) returns (ghost w: Word)
      requires Valid() && CursorOn(C(), i, num, cur, pageSize)
      requires Readable(C(), i, cur.logical, cur.logical + 4, pageSize)
      modifies this, ram, swap
      ensures Valid() && Quiet(old(C()), C())
      ensures i < |old(flat)| && cur.logical + 4 <= |old(flat)[i]|
      ensures w == BytesWord(old(flat)[i][cur.logical..cur.logical + 4])
      ensures Bumped(CounterHazard(policy, old(C()), i, num, cur, pageSize),
                     old(flat), flat, i, num, cur, WordBytes(Successor(w)), pageSize)
    {
      var data;
      ghost var g;
      data, g := LoadCounter(cur, i, num);
      var value := BytesWord(data);
      w := value;
      StoreBack(WordBytes(Successor(value)), cur, i, num, g, Displaced(policy, old(C()), i, num), old(C()));
    }

    method StoreBack(data: seq<Byte>, cur: Cursor, i: nat, ghost num: nat, ghost g: Page, ghost displaced: bool, ghost c: Control)
      requires |data| == 4 && Valid() && PhysicalOn(C(), g, cur, pageSize) && Quiet(c, C())
      requires cur.logical == Base(num, pageSize) + cur.offset
      requires Readable(C(), i, cur.logical, cur.logical + 4, pageSize)
      requires g == if cur.offset + 4 > pageSize && displaced then Page(i, num + 1) else Page(i, num)
      modifies this, ram, swap
      ensures Valid() && Quiet(c, C())
      ensures Bumped(cur.offset < pageSize < cur.offset + 4 && displaced, old(flat), flat, i, num, cur, data, pageSize)
    {
      ghost var c1 := C();
      ghost var next, num1;
      next, num1 := StoreWord(data, cur, Modification, i, num, g);
      BumpFollows(c, c1, C(), i, num, num + 1);
      BumpedFrom(displaced, c1, C(), old(flat), flat, data, cur, next, i, num, g, pageSize);
    }

    /** A cursor that has run off its page moves to the beginning of the next. */
    method CheckOverflow(cur: Cursor, kind: WriteKind, i: nat, ghost num: nat) returns (next: Cursor, ghost num': nat)
      requires Valid() && CursorOn(C(), i, num, cur, pageSize)
      requires LiveAt(C(), i, cur.logical, pageSize)
      modifies this, ram, swap
      ensures Valid() && flat == old(flat)
      ensures Stepped(old(C()), C(), i, num, num', cur, next, 0, kind, pageSize)
      ensures next.offset < pageSize
      ensures old(Latest(C(), Page(i, num))) ==> Latest(C(), Page(i, num'))
      ensures Went(policy, old(C()), C(), i, num, num', kind)
    {
      hide Route, Entered;
      num' := num;
      next := cur;
      if cur.offset + 1 > pageSize {
        num' := num + 1;
        ReadableHere(C(), i, num + 1, cur.logical, pageSize);
        next := Seek(i, cur.logical, kind, num + 1, 0);
        WentOne(policy, old(C()), C(), i, num, kind);
      } else {
        FollowsSelf(C(), i, num, Extra(kind));
        RouteNone(policy, C(), i, num + 1);
      }
    }

    method StoreChar(b: Byte, cur: Cursor, kind: WriteKind, i: nat, ghost num: nat, ghost from: nat, ghost to: nat)
      returns (next: Cursor, ghost num': nat)
      requires from <= cur.logical < to
      requires Valid() && CursorOn(C(), i, num, cur, pageSize) && Readable(C(), i, from, to, pageSize)
      modifies this, ram, swap
      ensures Valid() && Readable(C(), i, from, to, pageSize)
      ensures Stepped(old(C()), C(), i, num, num', cur, next, 1, kind, pageSize)
      ensures Wrote(old(flat), flat, i, cur.logical, [b])
    {
      assert LiveAt(C(), i, cur.logical, pageSize);
      next, num' := CheckOverflow(cur, kind, i, num);
      ReadableKept(old(C()), C(), i, num, num', Extra(kind), from, to, pageSize);
      Poke(next.physical, [b], Page(i, num'), next.offset, next.logical);
      next := Forward(next, 1);
    }

    method LoadChar(cur: Cursor, kind: WriteKind, i: nat, ghost num: nat, ghost from: nat, ghost to: nat)
      returns (b: Byte, next: Cursor, ghost num': nat)
      requires from <= cur.logical < to
      requires Valid() && CursorOn(C(), i, num, cur, pageSize) && Readable(C(), i, from, to, pageSize)
      modifies this, ram, swap
      ensures Valid() && flat == old(flat) && Readable(C(), i, from, to, pageSize)
      ensures Stepped(old(C()), C(), i, num, num', cur, next, 1, kind, pageSize)
      ensures i < |flat| && cur.logical < |flat[i]| && b == flat[i][cur.logical]
      ensures Went(policy, old(C()), C(), i, num, num', kind)
    {
      hide Route;
      assert LiveAt(C(), i, cur.logical, pageSize);
      next, num' := CheckOverflow(cur, kind, i, num);
      ReadableKept(old(C()), C(), i, num, num', Extra(kind), from, to, pageSize);
      var data := Peek(next.physical, 1, Page(i, num'), next.offset, next.logical);
      b := data[0];
      next := Forward(next, 1);
    }

    /** Moves the cursor over `n` bytes, page by page. */
    method Skip(cur: Cursor, n: nat, kind: WriteKind, i: nat, ghost num: nat) returns (next: Cursor, ghost num': nat)
      requires Valid() && CursorOn(C(), i, num, cur, pageSize)
      requires Readable(C(), i, cur.logical, cur.logical + n, pageSize)
      modifies this, ram, swap
      ensures Valid() && flat == old(flat)
      ensures Stepped(old(C()), C(), i, num, num', cur, next, n, kind, pageSize)
      ensures old(Latest(C(), Page(i, num))) ==> Latest(C(), Page(i, num'))
      ensures Went(policy, old(C()), C(), i, num, num', kind) && (n == 0 ==> num' == num)
    {
      hide Route;
      ghost var c := C();
      next, num' := cur, num;
      RouteNone(policy, c, i, num + 1);
      for k := 0 to n
        invariant Latest(c, Page(i, num)) ==> Latest(C(), Page(i, num'))
        invariant Valid() && flat == old(flat)
        invariant Stepped(c, C(), i, num, num', cur, next, k, kind, pageSize)
        invariant Went(policy, c, C(), i, num, num', kind) && (k == 0 ==> num' == num)
      {
        ghost var c1, n1, cur1 := C(), num', next;
        assert LiveAt(c, i, cur.logical + k, pageSize);
        LiveKept(c, c1, i, num, num', Extra(kind), cur.logical + k, pageSize);
        next, num' := CheckOverflow(next, kind, i, num');
        next := Forward(next, 1);
        FollowsTrans(c, c1, C(), i, num, n1, num', Extra(kind));
        WentOn(policy, c, c1, C(), i, num, n1, num', kind);
      }
    }
  }

  // ----- Reading a counter and writing it back ---------------------------------------------------------

  /** Entering the next page of the patota pushes page `num` out of RAM. */
  ghost predicate Displaced(policy: Policy, c: Control, i: nat, num: nat) {
    && !Resident(c.patotas, Page(i, num + 1))
    && WouldEvict(policy, c, Page(i, num))
  }

  /** Reading the word at the cursor pushes the page under the cursor out of RAM: the word straddles
      a page boundary, its second page has to be faulted in, and the policy evicts the first. */
  ghost predicate CounterHazard(policy: Policy, c: Control, i: nat, num: nat, cur: Cursor, p: nat) {
    cur.offset < p < cur.offset + 4 && Displaced(policy, c, i, num)
  }

  /** A full-memory fault for `pg` moves into the cursor's frame exactly when the cursor's page is the victim. */
  lemma AfterFullFault(policy: Policy, c: Control, i: nat, num: nat, cur: Cursor, pg: Page, c1: Control, p: nat)
    requires FramesOk(c) && |c.ramUsed| > 0 && FirstFree(c.ramUsed) == |c.ramUsed|
    requires CursorOn(c, i, num, cur, p) && FaultStep(policy, c, pg, c1)
    ensures if WouldEvict(policy, c, Page(i, num)) then PhysicalOn(c1, pg, cur, p) else CursorOn(c1, i, num, cur, p)
  {
    hide Victim, FirstFree, FramesOk, Placed, Evicted;
    var here := Page(i, num);
    FullFaultEffect(policy, c, pg, c1);
    var v, c2 :| Victim(policy, c, v, c2) && Replaced(c, pg, v, c1);
    WouldEvictOnly(policy, c, v, c2, here);
  }

  lemma TouchKeepsCursor(c: Control, g: Page, cur: Cursor, pg: Page, extra: int, p: nat)
    requires PhysicalOn(c, g, cur, p) && IsPage(c.patotas, pg)
    ensures PhysicalOn(TouchPage(c, pg, extra), g, cur, p)
  {
  }

  /** After entering the next page, the cursor's frame holds either still the old page or, exactly when that
      was the victim, the page just entered. */
  lemma AfterEntering(policy: Policy, c: Control, i: nat, num: nat, cur: Cursor, extra: int, c': Control, p: nat)
    requires FramesOk(c) && |c.ramUsed| > 0
    requires CursorOn(c, i, num, cur, p) && Entered(policy, c, Page(i, num + 1), extra, c')
    ensures PhysicalOn(c', if Displaced(policy, c, i, num) then Page(i, num + 1) else Page(i, num), cur, p)
  {
    var pg := Page(i, num + 1);
    if Resident(c.patotas, pg) {
      TouchKeepsCursor(c, Page(i, num), cur, pg, extra, p);
    } else {
      var c1 :| FaultStep(policy, c, pg, c1) && IsPage(c1.patotas, pg) && c' == TouchPage(c1, pg, extra);
      if FirstFree(c.ramUsed) < |c.ramUsed| {
        FreeFaultEffect(policy, c, pg, c1);
        assert IsPage(c1.patotas, Page(i, num));
        TouchKeepsCursor(c1, Page(i, num), cur, pg, extra, p);
      } else {
        AfterFullFault(policy, c, i, num, cur, pg, c1, p);
        TouchKeepsCursor(c1, if WouldEvict(policy, c, Page(i, num)) then pg else Page(i, num), cur, pg, extra, p);
      }
    }
  }

  /** The two halves of a write that went to adjacent places after all, or whose first half is empty. */
  lemma TwoHalves(flat: seq<seq<Byte>>, flat': seq<seq<Byte>>, i: nat, at: nat, at1: nat, data: seq<Byte>, q: nat)
    requires q <= |data| && i < |flat| && at + |data| <= |flat[i]|
    requires q > 0 ==> at1 == at
    requires WroteInTwo(flat, flat', i, at1, data[..q], i, at + q, data[q..])
    ensures Wrote(flat, flat', i, at, data)
  {
    if q > 0 {
      SpliceSplit(flat[i], at, data, q);
    } else {
      assert Splice(flat[i], at1, data[..q]) == flat[i];
      assert data[q..] == data;
    }
  }

  /** What incrementing the counter at the cursor writes. In the hazardous case the low bytes land on the
      wrong page, at the same offset, and the counter itself keeps its old lowest byte. */
  ghost predicate Bumped(hazard: bool, flat: seq<seq<Byte>>, flat': seq<seq<Byte>>, i: nat, num: nat, cur: Cursor, data: seq<Byte>, p: nat) {
    if hazard then
      && cur.offset < p < cur.offset + |data|
      && WroteInTwo(flat, flat', i, Base(num + 1, p) + cur.offset, data[..p - cur.offset],
                    i, cur.logical + (p - cur.offset), data[p - cur.offset..])
    else Wrote(flat, flat', i, cur.logical, data)
  }

  /** The counter is left as it should be exactly when there was no hazard. */
  lemma BumpedRight(hazard: bool, flat: seq<seq<Byte>>, flat': seq<seq<Byte>>, i: nat, num: nat, cur: Cursor, w: Word, p: nat)
    requires i < |flat| && cur.logical + 4 <= |flat[i]| && cur.logical == Base(num, p) + cur.offset && cur.offset <= p
    requires flat[i][cur.logical..cur.logical + 4] == WordBytes(w)
    requires Bumped(hazard, flat, flat', i, num, cur, WordBytes(Successor(w)), p)
    ensures Wrote(flat, flat', i, cur.logical, WordBytes(Successor(w))) <==> !hazard
  {
    if hazard {
      SuccessorLowByte(w);
      assert flat[i][cur.logical] == WordBytes(w)[0];
      assert flat'[i][cur.logical] == flat[i][cur.logical];
    }
  }

  /** In the hazardous case the counter is not what it should be. */
  lemma BumpedWrong(flat: seq<seq<Byte>>, flat': seq<seq<Byte>>, i: nat, num: nat, cur: Cursor, w: Word, p: nat)
    requires i < |flat| && cur.logical + 4 <= |flat[i]| && cur.logical == Base(num, p) + cur.offset
    requires flat[i][cur.logical..cur.logical + 4] == WordBytes(w)
    requires Bumped(true, flat, flat', i, num, cur, WordBytes(Successor(w)), p)
    ensures i < |flat'| && cur.logical + 4 <= |flat'[i]| && flat'[i][cur.logical..cur.logical + 4] != WordBytes(Successor(w))
  {
    SuccessorLowByte(w);
    assert flat[i][cur.logical] == WordBytes(w)[0];
    assert flat'[i][cur.logical] == flat[i][cur.logical];
    assert flat'[i][cur.logical..cur.logical + 4][0] == flat'[i][cur.logical];
  }

  // ----- What the accessors promise -------------------------------------------------------------------

  ghost predicate LiveAt(c: Control, i: nat, address: nat, p: nat)
    requires p > 0
  {
    Live(c, Page(i, BlockOf(address, p)))
  }

  /** Every byte in the stretch lies on a live page. */
  ghost predicate Readable(c: Control, i: nat, from: nat, to: nat, p: nat)
    requires p > 0
  {
    forall a {:trigger LiveAt(c, i, a, p)} :: from <= a < to ==> LiveAt(c, i, a, p)
  }

  lemma ReadableNext(c: Control, i: nat, num: nat, cur: Cursor, n: nat, p: nat)
    requires p > 0 && cur.offset <= p < cur.offset + n && cur.logical == Base(num, p) + cur.offset
    requires Readable(c, i, cur.logical, cur.logical + n, p)
    ensures Live(c, Page(i, num + 1))
    ensures cur.logical + (p - cur.offset) == Base(num + 1, p)
  {
    AddressParts(num + 1, 0, p);
    assert LiveAt(c, i, cur.logical + (p - cur.offset), p);
  }

  lemma ReadableHere(c: Control, i: nat, num: nat, address: nat, p: nat)
    requires p > 0 && address == Base(num, p) && LiveAt(c, i, address, p)
    ensures Live(c, Page(i, num))
  {
    AddressParts(num, 0, p);
  }

  lemma LiveKept(c: Control, c': Control, i: nat, from: int, to: int, extra: int, address: nat, p: nat)
    requires p > 0 && Follows(c, c', i, from, to, extra) && LiveAt(c, i, address, p)
    ensures LiveAt(c', i, address, p)
  {
    assert SameHead(c.patotas[i], c'.patotas[i]);
  }

  lemma ReadableKept(c: Control, c': Control, i: nat, num: int, num': int, extra: int, from: nat, to: nat, p: nat)
    requires p > 0 && Follows(c, c', i, num, num', extra) && Readable(c, i, from, to, p)
    ensures Readable(c', i, from, to, p)
  {
    forall a | from <= a < to ensures LiveAt(c', i, a, p) {
      assert LiveAt(c, i, a, p);
      LiveKept(c, c', i, num, num', extra, a, p);
    }
  }

  lemma BumpFollows(c: Control, c1: Control, c2: Control, i: nat, num: nat, num1: nat)
    requires Quiet(c, c1) && (c2 == c1 || Follows(c1, c2, i, num, num1, 0))
    ensures Quiet(c, c2)
  {
    if c2 != c1 {
      FollowsQuiet(c1, c2, i, num, num1);
      FollowsTrans(c, c1, c2, 0, 0, 0, 0, 0);
    }
  }

  /** Storing back at the saved cursor. */
  lemma BumpedFrom(displaced: bool, c1: Control, c2: Control, flat: seq<seq<Byte>>, flat': seq<seq<Byte>>,
                   data: seq<Byte>, cur: Cursor, next: Cursor, i: nat, num: nat, g: Page, p: nat)
    requires p >= 4 && cur.logical == Base(num, p) + cur.offset
    requires g == if cur.offset + 4 > p && displaced then Page(i, num + 1) else Page(i, num)
    requires StoredWord(c1, c2, flat, flat', data, cur, next, Modification, i, num, g, p)
    ensures Bumped(cur.offset < p < cur.offset + 4 && displaced, flat, flat', i, num, cur, data, p)
  {
    if cur.offset + 4 > p && (g == Page(i, num) || cur.offset == p) {
      TwoHalves(flat, flat', i, cur.logical, Base(g.num, p) + cur.offset, data, p - cur.offset);
    }
  }

  function NumAfterWord(cur: Cursor, num: nat, p: nat): nat {
    if cur.offset + 4 > p then num + 1 else num
  }

  /** The cursor has moved `n` bytes on, from page `num` to page `num'`, entering every page in between once. */
  ghost predicate Stepped(c: Control, c': Control, i: nat, num: nat, num': nat, cur: Cursor, next: Cursor, n: nat, kind: WriteKind, p: nat) {
    && next.logical == cur.logical + n
    && num <= num'
    && CursorOn(c', i, num', next, p)
    && (n > 0 ==> next.offset > 0)
    && Follows(c, c', i, num, num', Extra(kind))
  }

  /** `data` has been written at logical address `at` of patota `i`, and nothing else. */
  ghost predicate Wrote(flat: seq<seq<Byte>>, flat': seq<seq<Byte>>, i: nat, at: nat, data: seq<Byte>) {
    && i < |flat|
    && at + |data| <= |flat[i]|
    && flat' == flat[i := Splice(flat[i], at, data)]
  }

  /** With both halves of the cursor on the same page, storing a word writes its four bytes at the cursor. */
  lemma StoredHere(c: Control, c': Control, flat: seq<seq<Byte>>, flat': seq<seq<Byte>>,
                   data: seq<Byte>, cur: Cursor, next: Cursor, kind: WriteKind, i: nat, num: nat, p: nat)
    requires p >= 4 && |data| == 4
    requires StoredWord(c, c', flat, flat', data, cur, next, kind, i, num, Page(i, num), p)
    requires CursorOn(c, i, num, cur, p)
    ensures Wrote(flat, flat', i, cur.logical, data)
    ensures Stepped(c, c', i, num, NumAfterWord(cur, num, p), cur, next, 4, kind, p)
  {
    if cur.offset + 4 > p {
      SpliceSplit(flat[i], cur.logical, data, p - cur.offset);
    }
  }

  /** `c'` is `c` after moving to the live page `pg` and touching it. */
  ghost predicate Entered(policy: Policy, c: Control, pg: Page, extra: int, c': Control) {
    if Resident(c.patotas, pg) then c' == TouchPage(c, pg, extra)
    else exists c1 :: FaultStep(policy, c, pg, c1) && IsPage(c1.patotas, pg) && c' == TouchPage(c1, pg, extra)
  }

  // ----- Which pages an access enters -----------------------------------------------------------------

  /** Pages `from` up to, not including, `to` of patota `i`. */
  function PageRun(i: nat, from: nat, to: nat): (r: seq<Page>)
    requires from <= to
    ensures |r| == to - from && forall k :: 0 <= k < |r| ==> r[k] == Page(i, from + k)
  {
    seq(to - from, k requires 0 <= k < to - from => Page(i, from + k))
  }

  /** `c'` is `c` after entering these pages one after the other, to read or to modify. */
  ghost predicate Route(policy: Policy, c: Control, pages: seq<Page>, c': Control)
    decreases |pages|, 0
  {
    if pages == [] then c' == c else RouteBy(policy, c, pages[..|pages| - 1], pages[|pages| - 1], c')
  }

  ghost predicate RouteBy(policy: Policy, c: Control, pages: seq<Page>, last: Page, c': Control)
    decreases |pages|, 1
  {
    exists m :: Route(policy, c, pages, m) && Entered(policy, m, last, 0, c')
  }

  lemma RouteNext(policy: Policy, c: Control, pages: seq<Page>, m: Control, pg: Page, c': Control)
    requires Route(policy, c, pages, m) && Entered(policy, m, pg, 0, c')
    ensures Route(policy, c, pages + [pg], c')
  {
    assert (pages + [pg])[..|pages|] == pages;
  }

  lemma RouteNone(policy: Policy, c: Control, i: nat, at: nat)
    ensures Route(policy, c, PageRun(i, at, at), c)
  {
  }

  lemma {:induction false} RouteJoin(policy: Policy, a: Control, x: seq<Page>, b: Control, y: seq<Page>, c: Control)
    requires Route(policy, a, x, b) && Route(policy, b, y, c)
    ensures Route(policy, a, x + y, c)
    decreases |y|
  {
    hide Entered;
    if y == [] {
      assert x + y == x;
    } else {
      var z, last := y[..|y| - 1], y[|y| - 1];
      assert RouteBy(policy, b, z, last, c);
      var m :| Route(policy, b, z, m) && Entered(policy, m, last, 0, c);
      RouteJoin(policy, a, x, b, z, m);
      RouteNext(policy, a, x + z, m, last, c);
      assert x + z + [last] == x + y;
    }
  }

  lemma {:induction false} RouteSplit(policy: Policy, a: Control, x: seq<Page>, y: seq<Page>, c: Control) returns (b: Control)
    requires Route(policy, a, x + y, c)
    ensures Route(policy, a, x, b) && Route(policy, b, y, c)
    decreases |y|
  {
    hide Entered;
    if y == [] {
      assert x + y == x;
      b := c;
    } else {
      var z, last := y[..|y| - 1], y[|y| - 1];
      assert (x + y)[..|x + y| - 1] == x + z && (x + y)[|x + y| - 1] == last;
      assert RouteBy(policy, a, x + z, last, c);
      var m :| Route(policy, a, x + z, m) && Entered(policy, m, last, 0, c);
      b := RouteSplit(policy, a, x, z, m);
      RouteNext(policy, b, z, m, last, c);
      assert z + [last] == y;
    }
  }

  /** Going on along the pages of one patota. */
  lemma RunJoin(policy: Policy, a: Control, b: Control, c: Control, i: nat, from: nat, mid: nat, to: nat)
    requires from <= mid <= to
    requires Route(policy, a, PageRun(i, from, mid), b) && Route(policy, b, PageRun(i, mid, to), c)
    ensures Route(policy, a, PageRun(i, from, to), c)
  {
    hide Route;
    RouteJoin(policy, a, PageRun(i, from, mid), b, PageRun(i, mid, to), c);
    assert PageRun(i, from, mid) + PageRun(i, mid, to) == PageRun(i, from, to);
  }

  lemma RunOne(policy: Policy, a: Control, i: nat, num: nat, b: Control)
    requires Entered(policy, a, Page(i, num), 0, b)
    ensures Route(policy, a, PageRun(i, num, num + 1), b)
  {
    RouteNone(policy, a, i, num);
    RouteNext(policy, a, [], a, Page(i, num), b);
    assert PageRun(i, num, num + 1) == [] + [Page(i, num)];
  }

  /** An access that does not write enters the pages after `num` up to `num'`. */
  ghost predicate Went(policy: Policy, c: Control, c': Control, i: nat, num: nat, num': nat, kind: WriteKind) {
    num <= num' && (kind.Modification? ==> Route(policy, c, PageRun(i, num + 1, num' + 1), c'))
  }

  lemma WentOne(policy: Policy, c: Control, c': Control, i: nat, num: nat, kind: WriteKind)
    requires Entered(policy, c, Page(i, num + 1), Extra(kind), c')
    ensures Went(policy, c, c', i, num, num + 1, kind)
  {
    hide Entered, Route;
    if kind.Modification? {
      RunOne(policy, c, i, num + 1, c');
    }
  }

  lemma WentOn(policy: Policy, a: Control, b: Control, c: Control, i: nat, n0: nat, n1: nat, n2: nat, kind: WriteKind)
    requires Went(policy, a, b, i, n0, n1, kind) && Went(policy, b, c, i, n1, n2, kind)
    ensures Went(policy, a, c, i, n0, n2, kind)
  {
    hide Route;
    if kind.Modification? {
      RunJoin(policy, a, b, c, i, n0 + 1, n1 + 1, n2 + 1);
    }
  }

  /** Where a route leads is determined by the state it begins in. */
  lemma {:induction false} RouteUnique(policy: Policy, c: Control, pages: seq<Page>, a: Control, b: Control)
    requires Route(policy, c, pages, a) && Route(policy, c, pages, b)
    ensures a == b
    decreases |pages|
  {
    if pages != [] {
      var pg := pages[|pages| - 1];
      var m :| Route(policy, c, pages[..|pages| - 1], m) && Entered(policy, m, pg, 0, a);
      var n :| Route(policy, c, pages[..|pages| - 1], n) && Entered(policy, n, pg, 0, b);
      RouteUnique(policy, c, pages[..|pages| - 1], m, n);
      EnteredUnique(policy, m, pg, 0, a, b);
    }
  }

  lemma EnteredUnique(policy: Policy, c: Control, pg: Page, extra: int, a: Control, b: Control)
    requires Entered(policy, c, pg, extra, a) && Entered(policy, c, pg, extra, b)
    ensures a == b
  {
    if !Resident(c.patotas, pg) {
      var x :| FaultStep(policy, c, pg, x) && IsPage(x.patotas, pg) && a == TouchPage(x, pg, extra);
      var y :| FaultStep(policy, c, pg, y) && IsPage(y.patotas, pg) && b == TouchPage(y, pg, extra);
      FaultUnique(policy, c, pg, x, y);
    }
  }

  /** The effect of storing a word at a cursor whose physical half lies on page `g` and whose logical half
      lies on page `num` of patota `i`: a word that does not fit goes partly to `g`, partly to page `num + 1`. */
  ghost predicate StoredWord(c: Control, c': Control, flat: seq<seq<Byte>>, flat': seq<seq<Byte>>,
                             data: seq<Byte>, cur: Cursor, next: Cursor, kind: WriteKind, i: nat, num: nat, g: Page, p: nat)
  {
    var at := Base(g.num, p) + cur.offset;
    && |data| == 4
    && cur.offset <= p
    && next.logical == cur.logical + 4
    && if cur.offset + 4 <= p then
         && c' == c
         && next == Forward(cur, 4)
         && Wrote(flat, flat', g.pat, at, data)
       else
         var left := p - cur.offset;
         && Follows(c, c', i, num, num + 1, Extra(kind))
         && CursorOn(c', i, num + 1, next, p)
         && next.offset == 4 - left
         && WroteInTwo(flat, flat', g.pat, at, data[..left], i, cur.logical + left, data[left..])
  }

  /** Storing the two halves of a word on either side of a page boundary. */
  lemma StoredInTwo(c: Control, c': Control, f0: seq<seq<Byte>>, f1: seq<seq<Byte>>, f2: seq<seq<Byte>>,
                    data: seq<Byte>, cur: Cursor, next: Cursor, kind: WriteKind, i: nat, num: nat, g: Page, p: nat)
    requires cur.offset <= p < cur.offset + 4 && p >= 4 && |data| == 4
    requires Follows(c, c', i, num, num + 1, Extra(kind))
    requires CursorOn(c', i, num + 1, next, p) && next.offset == 4 - (p - cur.offset) && next.logical == cur.logical + 4
    requires Wrote(f0, f1, g.pat, Base(g.num, p) + cur.offset, data[..p - cur.offset])
    requires Wrote(f1, f2, i, cur.logical + (p - cur.offset), data[p - cur.offset..])
    ensures StoredWord(c, c', f0, f2, data, cur, next, kind, i, num, g, p)
  {
  }

  /** One write after the other. */
  ghost predicate WroteInTwo(flat: seq<seq<Byte>>, flat': seq<seq<Byte>>, i: nat, at: nat, data: seq<Byte>, i': nat, at': nat, data': seq<Byte>) {
    && i < |flat| && at + |data| <= |flat[i]|
    && Wrote(flat[i := Splice(flat[i], at, data)], flat', i', at', data')
  }

  lemma {:induction false} AllFree(used: seq<bool>)
    requires forall f :: 0 <= f < |used| ==> !used[f]
    ensures FreeCount(used) == |used|
  {
    if used != [] {
      AllFree(used[1..]);
    }
  }
}

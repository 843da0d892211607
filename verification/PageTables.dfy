/** The control state of the paging scheme as values: page tables, frame lists, the CLOCK hand and
    the LRU counter, together with who owns which frame, and the moves that page faults are made of. */
module PageTables {
  import opened Memory
  import opened CrewTable

  /** A row of a page table; a frame number of -1 means "none". The row keeps its last swap frame
      after the page has been brought into RAM. */
  datatype Row = Row(ramFrame: int, swapFrame: int, stamp: int, used: int, occupants: int)

  datatype TcbAddress = TcbAddress(tid: Word, address: nat)

  datatype Patota = Patota(
    pid: Word, rows: seq<Row>, taskSize: nat, written: nat,
    tcbs: seq<TcbAddress>, taskOffsets: seq<nat>)

  /** Page `num` of the patota at position `pat` in the list. */
  datatype Page = Page(pat: nat, num: nat)

  datatype Owner = Free | Of(page: Page)

  /** One touch of a page, in terms that survive changes of the patota list. */
  datatype Touch = Touch(pid: Word, num: nat)

  /** `released` are the pages given up early by expulsions, `touches` is the history that the
      stamps abbreviate, `admitted` the moment of the last admission. These and the owners only
      exist for the specification. */
  datatype Control = Control(
    patotas: seq<Patota>, ramUsed: seq<bool>, swapUsed: seq<bool>, hand: nat, counter: nat,
    ramOwner: seq<Owner>, swapOwner: seq<Owner>, released: set<Page>, touches: seq<Touch>, admitted: nat)

  // ----- Pages and rows ----------------------------------------------------------------

  predicate IsPage(ps: seq<Patota>, pg: Page) {
    pg.pat < |ps| && pg.num < |ps[pg.pat].rows|
  }

  function RowAt(ps: seq<Patota>, pg: Page): Row
    requires IsPage(ps, pg)
  {
    ps[pg.pat].rows[pg.num]
  }

  function SetRow(ps: seq<Patota>, pg: Page, r: Row): (qs: seq<Patota>)
    requires IsPage(ps, pg)
    ensures |qs| == |ps|
    ensures forall q :: IsPage(qs, q) <==> IsPage(ps, q)
    ensures forall q :: IsPage(ps, q) ==> RowAt(qs, q) == if q == pg then r else RowAt(ps, q)
    ensures forall i :: 0 <= i < |ps| ==> qs[i] == ps[i].(rows := qs[i].rows) && |qs[i].rows| == |ps[i].rows|
    ensures forall i :: 0 <= i < |ps| && i != pg.pat ==> qs[i] == ps[i]
  {
    ps[pg.pat := ps[pg.pat].(rows := ps[pg.pat].rows[pg.num := r])]
  }

  predicate Resident(ps: seq<Patota>, pg: Page) {
    IsPage(ps, pg) && RowAt(ps, pg).ramFrame != -1
  }

  // ----- Every frame has exactly its page -----------------------------------------------------

  ghost predicate OwnedRam(c: Control, f: nat)
    requires f < |c.ramOwner| == |c.ramUsed|
  {
    && (c.ramUsed[f] <==> c.ramOwner[f].Of?)
    && (c.ramOwner[f].Of? ==>
          && IsPage(c.patotas, c.ramOwner[f].page)
          && RowAt(c.patotas, c.ramOwner[f].page).ramFrame == f)
  }

  ghost predicate OwnedSwap(c: Control, s: nat)
    requires s < |c.swapOwner| == |c.swapUsed|
  {
    && (c.swapUsed[s] <==> c.swapOwner[s].Of?)
    && (c.swapOwner[s].Of? ==>
          && c.swapOwner[s].page !in c.released
          && IsPage(c.patotas, c.swapOwner[s].page)
          && RowAt(c.patotas, c.swapOwner[s].page).ramFrame == -1
          && RowAt(c.patotas, c.swapOwner[s].page).swapFrame == s)
  }

  ghost predicate Placed(c: Control, pg: Page)
    requires IsPage(c.patotas, pg)
  {
    var r := RowAt(c.patotas, pg);
    && -1 <= r.ramFrame < |c.ramOwner|
    && -1 <= r.swapFrame < |c.swapOwner|
    && (r.ramFrame != -1 ==>
          pg !in c.released && c.ramOwner[r.ramFrame] == Of(pg) && (r.used == 0 || r.used == 1))
    && (r.ramFrame == -1 && pg !in c.released ==>
          r.swapFrame != -1 && c.swapOwner[r.swapFrame] == Of(pg))
  }

  /** The frame tables and the page tables are each other's inverse on live pages. */
  ghost predicate FramesOk(c: Control) {
    && |c.ramOwner| == |c.ramUsed|
    && |c.swapOwner| == |c.swapUsed|
    && (forall f :: 0 <= f < |c.ramOwner| ==> OwnedRam(c, f))
    && (forall s :: 0 <= s < |c.swapOwner| ==> OwnedSwap(c, s))
    && (forall pg {:trigger Placed(c, pg)} :: IsPage(c.patotas, pg) ==> Placed(c, pg))
    && (forall pg :: pg in c.released ==> IsPage(c.patotas, pg))
  }

  // ----- As many used frames as live pages -----------------------------------------------------------

  /** The pages that nobody has given up. */
  ghost function LivePages(c: Control): set<Page> {
    set i, j | 0 <= i < |c.patotas| && 0 <= j < |c.patotas[i].rows| && Page(i, j) !in c.released :: Page(i, j)
  }

  /** The pages that own one of the first `n` frames of a list. */
  ghost function OwnersIn(owners: seq<Owner>, n: nat): set<Page>
    requires n <= |owners|
  {
    set f | 0 <= f < n && owners[f].Of? :: owners[f].page
  }

  function UsedCount(used: seq<bool>, n: nat): nat
    requires n <= |used|
  {
    if n == 0 then 0 else UsedCount(used, n - 1) + if used[n - 1] then 1 else 0
  }

  lemma {:induction false} UsedOrFree(used: seq<bool>, n: nat)
    requires n <= |used|
    ensures UsedCount(used, n) + FreeCount(used[..n]) == n
  {
    if n > 0 {
      UsedOrFree(used, n - 1);
      assert used[..n] == used[..n - 1] + [used[n - 1]];
      FreeSnoc(used[..n - 1], used[n - 1]);
    }
  }

  lemma {:induction false} FreeSnoc(used: seq<bool>, b: bool)
    ensures FreeCount(used + [b]) == FreeCount(used) + if b then 0 else 1
  {
    if used == [] {
      assert used + [b] == [b] && [b][1..] == [];
    } else {
      assert (used + [b])[1..] == used[1..] + [b];
      FreeSnoc(used[1..], b);
    }
  }

  ghost predicate OwnedAlone(used: seq<bool>, owners: seq<Owner>, f: nat)
    requires f < |used| == |owners|
  {
    && used[f] == owners[f].Of?
    && forall g {:trigger owners[g]} :: 0 <= g < f && owners[f].Of? ==> owners[g] != owners[f]
  }

  /** Owners are distinct, so there are as many as used frames. */
  lemma {:induction false} OwnersCounted(used: seq<bool>, owners: seq<Owner>, n: nat)
    requires n <= |used| == |owners| && forall f {:trigger OwnedAlone(used, owners, f)} :: 0 <= f < n ==> OwnedAlone(used, owners, f)
    ensures |OwnersIn(owners, n)| == UsedCount(used, n)
  {
    if n > 0 {
      OwnersCounted(used, owners, n - 1);
      assert OwnedAlone(used, owners, n - 1);
      OwnersNext(owners, n - 1);
    } else {
      assert OwnersIn(owners, 0) == {};
    }
  }

  lemma OwnersNext(owners: seq<Owner>, n: nat)
    requires n < |owners| && (owners[n].Of? ==> forall g :: 0 <= g < n ==> owners[g] != owners[n])
    ensures |OwnersIn(owners, n + 1)| == |OwnersIn(owners, n)| + if owners[n].Of? then 1 else 0
  {
    var before, now := OwnersIn(owners, n), OwnersIn(owners, n + 1);
    if owners[n].Of? {
      assert now == before + {owners[n].page};
    } else {
      assert now == before;
    }
  }

  /** Used frames, of RAM and of swap together, number exactly the live pages. */
  lemma UsedFramesAreLivePages(c: Control)
    requires FramesOk(c)
    ensures |LivePages(c)| == |c.ramUsed| - FreeCount(c.ramUsed) + |c.swapUsed| - FreeCount(c.swapUsed)
  {
    var inRam, inSwap := OwnersIn(c.ramOwner, |c.ramOwner|), OwnersIn(c.swapOwner, |c.swapOwner|);
    forall f | 0 <= f < |c.ramOwner| ensures OwnedAlone(c.ramUsed, c.ramOwner, f) {
      assert OwnedRam(c, f);
      forall g | 0 <= g < f && c.ramOwner[f].Of? ensures c.ramOwner[g] != c.ramOwner[f] {
        assert OwnedRam(c, g);
      }
    }
    forall s | 0 <= s < |c.swapOwner| ensures OwnedAlone(c.swapUsed, c.swapOwner, s) {
      assert OwnedSwap(c, s);
      forall g | 0 <= g < s && c.swapOwner[s].Of? ensures c.swapOwner[g] != c.swapOwner[s] {
        assert OwnedSwap(c, g);
      }
    }
    OwnersCounted(c.ramUsed, c.ramOwner, |c.ramOwner|);
    OwnersCounted(c.swapUsed, c.swapOwner, |c.swapOwner|);
    UsedOrFree(c.ramUsed, |c.ramUsed|);
    UsedOrFree(c.swapUsed, |c.swapUsed|);
    assert c.ramUsed[..|c.ramUsed|] == c.ramUsed && c.swapUsed[..|c.swapUsed|] == c.swapUsed;
    forall pg ensures pg in LivePages(c) <==> pg in inRam || pg in inSwap
      ensures !(pg in inRam && pg in inSwap)
    {
      LiveIsOwner(c, pg);
    }
    assert LivePages(c) == inRam + inSwap;
  }

  lemma LiveIsOwner(c: Control, pg: Page)
    requires FramesOk(c)
    ensures pg in LivePages(c) <==> pg in OwnersIn(c.ramOwner, |c.ramOwner|) || pg in OwnersIn(c.swapOwner, |c.swapOwner|)
    ensures !(pg in OwnersIn(c.ramOwner, |c.ramOwner|) && pg in OwnersIn(c.swapOwner, |c.swapOwner|))
  {
    if IsPage(c.patotas, pg) {
      assert Placed(c, pg) && pg == Page(pg.pat, pg.num);
    }
    if pg in OwnersIn(c.ramOwner, |c.ramOwner|) {
      var f :| 0 <= f < |c.ramOwner| && c.ramOwner[f] == Of(pg);
      assert OwnedRam(c, f);
    }
    if pg in OwnersIn(c.swapOwner, |c.swapOwner|) {
      var s :| 0 <= s < |c.swapOwner| && c.swapOwner[s] == Of(pg);
      assert OwnedSwap(c, s);
    }
  }

  // ----- Stamps abbreviate the touch history -------------------------------------------------------

  function TouchOf(ps: seq<Patota>, pg: Page): Touch
    requires IsPage(ps, pg)
  {
    Touch(ps[pg.pat].pid, pg.num)
  }

  /** Nothing touched `t` after the moment `stamp`. */
  ghost predicate NotSince(touches: seq<Touch>, t: Touch, stamp: int) {
    forall k :: 0 <= k < |touches| && stamp < k ==> touches[k] != t
  }

  /** The page has been touched, last at the moment it is stamped with. */
  ghost predicate Touched(c: Control, pg: Page) {
    && Resident(c.patotas, pg)
    && 0 <= RowAt(c.patotas, pg).stamp < |c.touches|
    && c.touches[RowAt(c.patotas, pg).stamp] == TouchOf(c.patotas, pg)
  }

  ghost predicate Stamped(c: Control, pg: Page)
    requires IsPage(c.patotas, pg)
  {
    && 0 <= RowAt(c.patotas, pg).stamp <= c.counter
    && NotSince(c.touches, TouchOf(c.patotas, pg), RowAt(c.patotas, pg).stamp)
    && (!Touched(c, pg) ==> RowAt(c.patotas, pg).stamp <= c.admitted)
  }

  /** A page that has been touched carries the moment of its last touch; one never touched since its
      admission carries the moment of that admission. */
  ghost predicate StampsOk(c: Control) {
    && c.counter == |c.touches|
    && c.admitted <= c.counter
    && forall pg {:trigger Stamped(c, pg)} :: Resident(c.patotas, pg) ==> Stamped(c, pg)
  }

  ghost predicate DistinctOwners(ps: seq<Patota>) {
    forall i, j :: 0 <= i < j < |ps| ==> ps[i].pid != ps[j].pid
  }

  /** Two touched resident pages never share a stamp. */
  lemma TouchedStampsDistinct(c: Control, a: Page, b: Page)
    requires DistinctOwners(c.patotas)
    requires Touched(c, a) && Touched(c, b) && a != b
    ensures RowAt(c.patotas, a).stamp != RowAt(c.patotas, b).stamp
  {
  }

  // ----- Contents: the live location of a page holds its logical bytes -------------------------------

  ghost function Location(r: Row, ram: seq<Byte>, swap: seq<Byte>, p: nat): seq<Byte> {
    if r.ramFrame >= 0 then Block(ram, r.ramFrame, p)
    else if r.swapFrame >= 0 then Block(swap, r.swapFrame, p)
    else []
  }

  /** The live location of page `pg` holds its block of the flat memory. */
  ghost predicate Stored(c: Control, pg: Page, flat: seq<seq<Byte>>, ram: seq<Byte>, swap: seq<Byte>, p: nat)
    requires IsPage(c.patotas, pg) && |flat| == |c.patotas|
  {
    Block(flat[pg.pat], pg.num, p) == Location(RowAt(c.patotas, pg), ram, swap, p)
  }

  ghost predicate ContentOk(c: Control, flat: seq<seq<Byte>>, ram: seq<Byte>, swap: seq<Byte>, p: nat) {
    && |flat| == |c.patotas|
    && (forall i :: 0 <= i < |flat| ==> |flat[i]| == Base(|c.patotas[i].rows|, p))
    && (forall pg {:trigger Stored(c, pg, flat, ram, swap, p)} :: IsPage(c.patotas, pg) && pg !in c.released ==>
          Stored(c, pg, flat, ram, swap, p))
  }

  ghost predicate SizesOk(c: Control, ram: seq<Byte>, swap: seq<Byte>, p: nat) {
    && p > 0
    && Base(|c.ramUsed|, p) <= |ram|
    && Base(|c.swapUsed|, p) <= |swap|
    && c.hand <= |c.ramUsed|
  }

  /** The invariant of the paged memory: `flat` is what each patota believes its memory holds. */
  ghost predicate MemoryOk(c: Control, flat: seq<seq<Byte>>, ram: seq<Byte>, swap: seq<Byte>, p: nat) {
    && SizesOk(c, ram, swap, p)
    && FramesOk(c)
    && StampsOk(c)
    && DistinctOwners(c.patotas)
    && ContentOk(c, flat, ram, swap, p)
  }

  // ----- The moves ----------------------------------------------------------------------------------

  /** A touch: the stamp, the history and the use bit; a new writing adds an occupant. */
  ghost function TouchPage(c: Control, pg: Page, extra: int): Control
    requires IsPage(c.patotas, pg)
  {
    var r := RowAt(c.patotas, pg);
    c.(patotas := SetRow(c.patotas, pg, r.(stamp := c.counter, used := 1, occupants := r.occupants + extra)),
       counter := c.counter + 1,
       touches := c.touches + [TouchOf(c.patotas, pg)])
  }

  /** After a touch of `pg`, all stamps still abbreviate the history. */
  lemma StampsAfterTouch(c: Control, c': Control, pg: Page)
    requires StampsOk(c) && DistinctOwners(c.patotas)
    requires |c'.patotas| == |c.patotas|
    requires forall i :: 0 <= i < |c.patotas| ==> c'.patotas[i].pid == c.patotas[i].pid
    requires IsPage(c.patotas, pg) && Resident(c'.patotas, pg)
    requires RowAt(c'.patotas, pg).stamp == c.counter
    requires c'.counter == c.counter + 1 && c'.touches == c.touches + [TouchOf(c.patotas, pg)]
    requires c'.admitted == c.admitted
    requires forall q :: Resident(c'.patotas, q) && q != pg ==>
               Resident(c.patotas, q) && RowAt(c'.patotas, q).stamp == RowAt(c.patotas, q).stamp
    ensures StampsOk(c') && Touched(c', pg)
  {
    forall q | Resident(c'.patotas, q) ensures Stamped(c', q) {
      if q != pg {
        assert Stamped(c, q);
        assert TouchOf(c'.patotas, q) == TouchOf(c.patotas, q) != TouchOf(c.patotas, pg);
      }
    }
  }

  lemma TouchFrames(c: Control, pg: Page, extra: int)
    requires FramesOk(c) && Resident(c.patotas, pg)
    ensures FramesOk(TouchPage(c, pg, extra))
  {
    assert Placed(c, pg);
    var c' := TouchPage(c, pg, extra);
    forall g | 0 <= g < |c'.ramOwner| ensures OwnedRam(c', g) {
      assert OwnedRam(c, g);
    }
    forall s | 0 <= s < |c'.swapOwner| ensures OwnedSwap(c', s) {
      assert OwnedSwap(c, s);
    }
    forall q | IsPage(c'.patotas, q) ensures Placed(c', q) {
      assert Placed(c, q);
    }
  }

  /** Contents do not depend on anything but frame numbers. */
  lemma SameLocations(c: Control, c': Control, flat: seq<seq<Byte>>, ram: seq<Byte>, swap: seq<Byte>, p: nat)
    requires ContentOk(c, flat, ram, swap, p) && c'.released == c.released && |c'.patotas| == |c.patotas|
    requires forall i :: 0 <= i < |c.patotas| ==> |c'.patotas[i].rows| == |c.patotas[i].rows|
    requires forall q :: IsPage(c.patotas, q) ==>
               RowAt(c'.patotas, q).ramFrame == RowAt(c.patotas, q).ramFrame
               && RowAt(c'.patotas, q).swapFrame == RowAt(c.patotas, q).swapFrame
    ensures ContentOk(c', flat, ram, swap, p)
  {
    forall q | IsPage(c'.patotas, q) && q !in c'.released ensures Stored(c', q, flat, ram, swap, p) {
      assert Stored(c, q, flat, ram, swap, p);
    }
  }

  lemma TouchOk(c: Control, pg: Page, extra: int, flat: seq<seq<Byte>>, ram: seq<Byte>, swap: seq<Byte>, p: nat)
    requires MemoryOk(c, flat, ram, swap, p) && Resident(c.patotas, pg)
    ensures MemoryOk(TouchPage(c, pg, extra), flat, ram, swap, p)
    ensures Touched(TouchPage(c, pg, extra), pg)
  {
    TouchFrames(c, pg, extra);
    StampsAfterTouch(c, TouchPage(c, pg, extra), pg);
    SameLocations(c, TouchPage(c, pg, extra), flat, ram, swap, p);
  }

  /** The page moves from its swap frame to the free RAM frame `f`; the row keeps naming the swap frame. */
  ghost function PageIn(c: Control, pg: Page, f: nat): Control
    requires IsPage(c.patotas, pg) && f < |c.ramUsed| == |c.ramOwner|
    requires 0 <= RowAt(c.patotas, pg).swapFrame < |c.swapUsed| == |c.swapOwner|
  {
    var r := RowAt(c.patotas, pg);
    c.(patotas := SetRow(c.patotas, pg, r.(ramFrame := f, used := 1, stamp := c.counter)),
       ramUsed := c.ramUsed[f := true], ramOwner := c.ramOwner[f := Of(pg)],
       swapUsed := c.swapUsed[r.swapFrame := false], swapOwner := c.swapOwner[r.swapFrame := Free],
       counter := c.counter + 1,
       touches := c.touches + [TouchOf(c.patotas, pg)])
  }

  /** The page moves from its RAM frame to the free swap frame `s`. */
  ghost function PageOut(c: Control, pg: Page, s: nat): Control
    requires IsPage(c.patotas, pg) && s < |c.swapUsed| == |c.swapOwner|
    requires 0 <= RowAt(c.patotas, pg).ramFrame < |c.ramUsed| == |c.ramOwner|
  {
    var r := RowAt(c.patotas, pg);
    c.(patotas := SetRow(c.patotas, pg, r.(ramFrame := -1, swapFrame := s)),
       ramUsed := c.ramUsed[r.ramFrame := false], ramOwner := c.ramOwner[r.ramFrame := Free],
       swapUsed := c.swapUsed[s := true], swapOwner := c.swapOwner[s := Of(pg)])
  }

  /** With both memories full, the page in swap and the resident victim trade places. */
  ghost function Exchange(c: Control, pg: Page, victim: Page): Control
    requires IsPage(c.patotas, pg) && IsPage(c.patotas, victim)
    requires 0 <= RowAt(c.patotas, pg).swapFrame < |c.swapOwner|
    requires 0 <= RowAt(c.patotas, victim).ramFrame < |c.ramOwner|
  {
    var v := RowAt(c.patotas, victim);
    var r := RowAt(c.patotas, pg);
    var out := SetRow(c.patotas, victim, v.(ramFrame := -1, swapFrame := r.swapFrame));
    c.(patotas := SetRow(out, pg, r.(ramFrame := v.ramFrame, used := 1, stamp := c.counter)),
       ramOwner := c.ramOwner[v.ramFrame := Of(pg)],
       swapOwner := c.swapOwner[r.swapFrame := Of(victim)],
       counter := c.counter + 1,
       touches := c.touches + [TouchOf(c.patotas, pg)])
  }

  /** A live page that is not resident can be faulted in. */
  ghost predicate Faultable(c: Control, pg: Page) {
    && IsPage(c.patotas, pg)
    && RowAt(c.patotas, pg).ramFrame == -1
    && pg !in c.released
  }

  /** The invariant from its three parts. */
  lemma FramesFrom(c: Control)
    requires |c.ramOwner| == |c.ramUsed| && |c.swapOwner| == |c.swapUsed|
    requires forall f :: 0 <= f < |c.ramOwner| ==> OwnedRam(c, f)
    requires forall s :: 0 <= s < |c.swapOwner| ==> OwnedSwap(c, s)
    requires forall pg :: IsPage(c.patotas, pg) ==> Placed(c, pg)
    requires forall pg :: pg in c.released ==> IsPage(c.patotas, pg)
    ensures FramesOk(c)
  {
  }

  lemma PageInFrames(c: Control, pg: Page, f: nat)
    requires FramesOk(c) && Faultable(c, pg)
    requires f < |c.ramUsed| && !c.ramUsed[f]
    ensures Placed(c, pg) && FramesOk(PageIn(c, pg, f))
  {
    assert Placed(c, pg);
    var c' := PageIn(c, pg, f);
    assert OwnedRam(c, f);
    forall g | 0 <= g < |c'.ramOwner| ensures OwnedRam(c', g) {
      assert OwnedRam(c, g);
    }
    forall s | 0 <= s < |c'.swapOwner| ensures OwnedSwap(c', s) {
      assert OwnedSwap(c, s);
    }
    forall q | IsPage(c'.patotas, q) ensures Placed(c', q) {
      assert Placed(c, q);
    }
  }

  lemma PageOutFrames(c: Control, pg: Page, s: nat)
    requires FramesOk(c) && Resident(c.patotas, pg)
    requires s < |c.swapUsed| && !c.swapUsed[s]
    ensures Placed(c, pg) && FramesOk(PageOut(c, pg, s))
  {
    assert Placed(c, pg);
    var c' := PageOut(c, pg, s);
    assert OwnedSwap(c, s);
    forall g | 0 <= g < |c'.ramOwner| ensures OwnedRam(c', g) {
      assert OwnedRam(c, g);
    }
    forall t | 0 <= t < |c'.swapOwner| ensures OwnedSwap(c', t) {
      assert OwnedSwap(c, t);
    }
    forall q | IsPage(c'.patotas, q) ensures Placed(c', q) {
      assert Placed(c, q);
    }
  }

  lemma ExchangeFrames(c: Control, pg: Page, victim: Page)
    requires FramesOk(c) && Faultable(c, pg) && Resident(c.patotas, victim)
    ensures Placed(c, pg) && Placed(c, victim) && FramesOk(Exchange(c, pg, victim))
  {
    assert Placed(c, pg) && Placed(c, victim);
    var c' := Exchange(c, pg, victim);
    forall g | 0 <= g < |c'.ramOwner| ensures OwnedRam(c', g) {
      assert OwnedRam(c, g);
    }
    forall t | 0 <= t < |c'.swapOwner| ensures OwnedSwap(c', t) {
      assert OwnedSwap(c, t);
    }
    forall q | IsPage(c'.patotas, q) ensures Placed(c', q) {
      assert Placed(c, q);
    }
  }

  /** Overwriting the frame of one page leaves the block of another alone. */
  lemma OtherBlock(buffer: seq<Byte>, f: nat, data: seq<Byte>, g: nat, p: nat)
    requires p > 0 && Base(f, p) + p <= |buffer| && |data| == p
    ensures Block(Splice(buffer, Base(f, p), data), g, p) == if g == f then data else Block(buffer, g, p)
  {
    SpliceBlock(buffer, Base(f, p), data, f, 0, p, g);
    if g == f {
      assert Splice(Block(buffer, f, p), 0, data) == data;
    }
  }

  lemma PageInContent(c: Control, pg: Page, f: nat, s: nat, flat: seq<seq<Byte>>, ram: seq<Byte>, swap: seq<Byte>, p: nat)
    requires p > 0 && FramesOk(c) && ContentOk(c, flat, ram, swap, p) && Faultable(c, pg) && Placed(c, pg)
    requires f < |c.ramUsed| && !c.ramUsed[f] && s == RowAt(c.patotas, pg).swapFrame
    requires Base(f, p) + p <= |ram| && |Block(swap, s, p)| == p
    ensures ContentOk(PageIn(c, pg, f), flat, Splice(ram, Base(f, p), Block(swap, s, p)), swap, p)
  {
    var ram' := Splice(ram, Base(f, p), Block(swap, s, p));
    var c' := PageIn(c, pg, f);
    assert OwnedRam(c, f);
    assert Stored(c, pg, flat, ram, swap, p);
    forall q | IsPage(c'.patotas, q) && q !in c'.released
      ensures Stored(c', q, flat, ram', swap, p)
    {
      assert Stored(c, q, flat, ram, swap, p);
      assert Placed(c, q);
      if RowAt(c'.patotas, q).ramFrame >= 0 {
        OtherBlock(ram, f, Block(swap, s, p), RowAt(c'.patotas, q).ramFrame, p);
      }
    }
  }

  /** Bringing a page in from swap changes nothing a client can see. */
  lemma PageInOk(c: Control, pg: Page, f: nat, s: nat, flat: seq<seq<Byte>>, ram: seq<Byte>, swap: seq<Byte>, p: nat)
    requires MemoryOk(c, flat, ram, swap, p) && Faultable(c, pg)
    requires f < |c.ramUsed| && !c.ramUsed[f] && s == RowAt(c.patotas, pg).swapFrame
    ensures Placed(c, pg)
    ensures Base(f, p) + p <= |ram| && |Block(swap, s, p)| == p
    ensures MemoryOk(PageIn(c, pg, f), flat, Splice(ram, Base(f, p), Block(swap, s, p)), swap, p)
  {
    assert Placed(c, pg);
    BlockFits(f, |c.ramUsed|, p);
    BlockFits(s, |c.swapUsed|, p);
    PageInContent(c, pg, f, s, flat, ram, swap, p);
    PageInFrames(c, pg, f);
    StampsAfterTouch(c, PageIn(c, pg, f), pg);
  }

  lemma PageOutContent(c: Control, pg: Page, f: nat, s: nat, flat: seq<seq<Byte>>, ram: seq<Byte>, swap: seq<Byte>, p: nat)
    requires p > 0 && FramesOk(c) && ContentOk(c, flat, ram, swap, p) && Resident(c.patotas, pg) && Placed(c, pg)
    requires s < |c.swapUsed| && !c.swapUsed[s] && f == RowAt(c.patotas, pg).ramFrame
    requires Base(s, p) + p <= |swap| && |Block(ram, f, p)| == p
    ensures ContentOk(PageOut(c, pg, s), flat, ram, Splice(swap, Base(s, p), Block(ram, f, p)), p)
  {
    var swap' := Splice(swap, Base(s, p), Block(ram, f, p));
    var c' := PageOut(c, pg, s);
    assert OwnedSwap(c, s);
    assert Stored(c, pg, flat, ram, swap, p);
    forall q | IsPage(c'.patotas, q) && q !in c'.released
      ensures Stored(c', q, flat, ram, swap', p)
    {
      assert Stored(c, q, flat, ram, swap, p);
      assert Placed(c, q);
      if RowAt(c'.patotas, q).ramFrame < 0 {
        OtherBlock(swap, s, Block(ram, f, p), RowAt(c'.patotas, q).swapFrame, p);
      }
    }
  }

  /** Evicting a page to swap changes nothing a client can see. */
  lemma PageOutOk(c: Control, pg: Page, f: nat, s: nat, flat: seq<seq<Byte>>, ram: seq<Byte>, swap: seq<Byte>, p: nat)
    requires MemoryOk(c, flat, ram, swap, p) && Resident(c.patotas, pg)
    requires s < |c.swapUsed| && !c.swapUsed[s] && f == RowAt(c.patotas, pg).ramFrame
    ensures Placed(c, pg)
    ensures Base(s, p) + p <= |swap| && |Block(ram, f, p)| == p
    ensures MemoryOk(PageOut(c, pg, s), flat, ram, Splice(swap, Base(s, p), Block(ram, f, p)), p)
  {
    assert Placed(c, pg);
    BlockFits(s, |c.swapUsed|, p);
    BlockFits(f, |c.ramUsed|, p);
    PageOutContent(c, pg, f, s, flat, ram, swap, p);
    PageOutFrames(c, pg, s);
    var c' := PageOut(c, pg, s);
    forall q | Resident(c'.patotas, q) ensures Stamped(c', q) {
      assert Stamped(c, q);
    }
  }

  lemma ExchangeContent(c: Control, pg: Page, victim: Page, f: nat, s: nat,
                        flat: seq<seq<Byte>>, ram: seq<Byte>, swap: seq<Byte>, p: nat)
    requires p > 0 && FramesOk(c) && ContentOk(c, flat, ram, swap, p)
    requires Faultable(c, pg) && Resident(c.patotas, victim) && Placed(c, pg) && Placed(c, victim)
    requires f == RowAt(c.patotas, victim).ramFrame && s == RowAt(c.patotas, pg).swapFrame
    requires Base(f, p) + p <= |ram| && Base(s, p) + p <= |swap| && |Block(swap, s, p)| == p == |Block(ram, f, p)|
    ensures ContentOk(Exchange(c, pg, victim), flat, Splice(ram, Base(f, p), Block(swap, s, p)), Splice(swap, Base(s, p), Block(ram, f, p)), p)
  {
    var ram' := Splice(ram, Base(f, p), Block(swap, s, p));
    var swap' := Splice(swap, Base(s, p), Block(ram, f, p));
    var c' := Exchange(c, pg, victim);
    assert Stored(c, pg, flat, ram, swap, p) && Stored(c, victim, flat, ram, swap, p);
    forall q | IsPage(c'.patotas, q) && q !in c'.released
      ensures Stored(c', q, flat, ram', swap', p)
    {
      assert Stored(c, q, flat, ram, swap, p);
      assert Placed(c, q);
      if RowAt(c'.patotas, q).ramFrame >= 0 {
        OtherBlock(ram, f, Block(swap, s, p), RowAt(c'.patotas, q).ramFrame, p);
      } else {
        OtherBlock(swap, s, Block(ram, f, p), RowAt(c'.patotas, q).swapFrame, p);
      }
    }
  }

  /** Trading places changes nothing a client can see. */
  lemma ExchangeOk(c: Control, pg: Page, victim: Page, f: nat, s: nat,
                   flat: seq<seq<Byte>>, ram: seq<Byte>, swap: seq<Byte>, p: nat)
    requires MemoryOk(c, flat, ram, swap, p) && Faultable(c, pg) && Resident(c.patotas, victim)
    requires f == RowAt(c.patotas, victim).ramFrame && s == RowAt(c.patotas, pg).swapFrame
    ensures Placed(c, pg) && Placed(c, victim)
    ensures Base(f, p) + p <= |ram| && Base(s, p) + p <= |swap| && |Block(swap, s, p)| == p == |Block(ram, f, p)|
    ensures MemoryOk(Exchange(c, pg, victim), flat, Splice(ram, Base(f, p), Block(swap, s, p)), Splice(swap, Base(s, p), Block(ram, f, p)), p)
  {
    assert Placed(c, pg) && Placed(c, victim);
    BlockFits(f, |c.ramUsed|, p);
    BlockFits(s, |c.swapUsed|, p);
    ExchangeContent(c, pg, victim, f, s, flat, ram, swap, p);
    ExchangeFrames(c, pg, victim);
    StampsAfterTouch(c, Exchange(c, pg, victim), pg);
  }

  /** What a write at `at` in RAM and at `pos` in the flat memory does to the page `q`. */
  lemma WriteOnePage(c: Control, pg: Page, q: Page, f: nat, at: nat, pos: nat, off: nat, data: seq<Byte>,
                     flat: seq<seq<Byte>>, ram: seq<Byte>, swap: seq<Byte>, p: nat)
    requires Resident(c.patotas, pg) && IsPage(c.patotas, q) && q !in c.released && |flat| == |c.patotas|
    requires Placed(c, pg) && Placed(c, q) && f == RowAt(c.patotas, pg).ramFrame
    requires p > 0 && off + |data| <= p
    requires at == Base(f, p) + off && at - off + p <= |ram|
    requires pos == Base(pg.num, p) + off && pos - off + p <= |flat[pg.pat]|
    requires Stored(c, q, flat, ram, swap, p) && Stored(c, pg, flat, ram, swap, p)
    ensures Stored(c, q, flat[pg.pat := Splice(flat[pg.pat], pos, data)], Splice(ram, at, data), swap, p)
  {
    var g := RowAt(c.patotas, q).ramFrame;
    if q.pat == pg.pat {
      SpliceBlock(flat[pg.pat], pos, data, pg.num, off, p, q.num);
    }
    if g >= 0 {
      SpliceBlock(ram, at, data, f, off, p, g);
    }
  }

  /** Writing `data` at offset `off` of a resident page writes the same bytes of the flat memory. */
  lemma WriteOk(c: Control, pg: Page, f: nat, at: nat, pos: nat, off: nat, data: seq<Byte>,
                flat: seq<seq<Byte>>, ram: seq<Byte>, swap: seq<Byte>, p: nat)
    requires MemoryOk(c, flat, ram, swap, p) && Resident(c.patotas, pg) && off + |data| <= p
    requires f == RowAt(c.patotas, pg).ramFrame && at == Base(f, p) + off && pos == Base(pg.num, p) + off
    ensures at + |data| <= |ram| && pg.pat < |flat| && pos + |data| <= |flat[pg.pat]|
    ensures MemoryOk(c, flat[pg.pat := Splice(flat[pg.pat], pos, data)], Splice(ram, at, data), swap, p)
  {
    assert Placed(c, pg);
    BlockFits(f, |c.ramUsed|, p);
    BlockFits(pg.num, |c.patotas[pg.pat].rows|, p);
    var ram' := Splice(ram, at, data);
    var flat' := flat[pg.pat := Splice(flat[pg.pat], pos, data)];
    assert Stored(c, pg, flat, ram, swap, p);
    forall q | IsPage(c.patotas, q) && q !in c.released ensures Stored(c, q, flat', ram', swap, p) {
      assert Stored(c, q, flat, ram, swap, p);
      assert Placed(c, q);
      WriteOnePage(c, pg, q, f, at, pos, off, data, flat, ram, swap, p);
    }
    assert ContentOk(c, flat', ram', swap, p);
  }

  /** Reading inside a resident page reads the same bytes of the flat memory. */
  lemma ReadOk(c: Control, pg: Page, off: nat, n: nat, flat: seq<seq<Byte>>, ram: seq<Byte>, swap: seq<Byte>, p: nat)
    requires MemoryOk(c, flat, ram, swap, p) && Resident(c.patotas, pg) && off + n <= p
    ensures Placed(c, pg)
    ensures var f := RowAt(c.patotas, pg).ramFrame;
      && Base(f, p) + off + n <= |ram|
      && pg.pat < |flat| && Base(pg.num, p) + off + n <= |flat[pg.pat]|
      && ram[Base(f, p) + off..Base(f, p) + off + n] == flat[pg.pat][Base(pg.num, p) + off..Base(pg.num, p) + off + n]
  {
    assert Placed(c, pg);
    var f := RowAt(c.patotas, pg).ramFrame;
    BlockFits(f, |c.ramUsed|, p);
    BlockFits(pg.num, |c.patotas[pg.pat].rows|, p);
    assert Stored(c, pg, flat, ram, swap, p);
    BlockSlice(ram, f, off, off + n, p);
    BlockSlice(flat[pg.pat], pg.num, off, off + n, p);
  }

  // ----- Choosing a victim --------------------------------------------------------------------------

  /** `a` comes before `b` when the patota list is walked from its head, table by table. */
  predicate Before(a: Page, b: Page) {
    a.pat < b.pat || (a.pat == b.pat && a.num < b.num)
  }

  /** The LRU choice: a smallest stamp, and the last of these in walking order. */
  ghost predicate LruVictim(c: Control, v: Page) {
    && Resident(c.patotas, v)
    && forall q :: Resident(c.patotas, q) && q != v ==>
         var s, t := RowAt(c.patotas, q).stamp, RowAt(c.patotas, v).stamp;
         t < s || (t == s && Before(q, v))
  }

  /** Nothing resident that has ever been touched was last touched before a touched LRU victim. */
  lemma LruVictimLeastRecent(c: Control, v: Page, q: Page, k: nat)
    requires StampsOk(c) && LruVictim(c, v) && Touched(c, v) && Resident(c.patotas, q) && q != v
    requires k <= RowAt(c.patotas, v).stamp
    requires forall m :: k <= m < |c.touches| ==> c.touches[m] != TouchOf(c.patotas, q)
    ensures !Touched(c, q)
  {
  }

  /** The frame `n` places after `start` on a clock of `size` frames. */
  function ClockFrame(start: nat, n: nat, size: nat): (f: nat)
    requires start < size && n <= size
    ensures f < size
  {
    if start + n < size then start + n else start + n - size
  }

  ghost predicate AllOwned(c: Control) {
    && |c.ramOwner| == |c.ramUsed|
    && forall f {:trigger HasPage(c, f)} {:trigger c.ramOwner[f]} :: 0 <= f < |c.ramOwner| ==> HasPage(c, f)
  }

  /** The page in RAM frame `f`, if the frame is owned. */
  ghost predicate HasPage(c: Control, f: nat) {
    f < |c.ramOwner| && c.ramOwner[f].Of? && IsPage(c.patotas, c.ramOwner[f].page)
  }

  ghost function UseBit(c: Control, f: nat): int {
    if HasPage(c, f) then RowAt(c.patotas, c.ramOwner[f].page).used else 0
  }

  ghost function ClearBit(c: Control, f: nat): (c': Control)
    ensures c' == c.(patotas := c'.patotas)
  {
    if HasPage(c, f) then
      var pg := c.ramOwner[f].page;
      c.(patotas := SetRow(c.patotas, pg, RowAt(c.patotas, pg).(used := 0)))
    else c
  }

  /** The state after the hand has passed `n` frames from `start`. */
  ghost function ClearBits(c: Control, start: nat, n: nat): (c': Control)
    requires start < |c.ramOwner| && n <= |c.ramOwner|
    ensures c' == c.(patotas := c'.patotas)
  {
    if n == 0 then c
    else ClearBit(ClearBits(c, start, n - 1), ClockFrame(start, n - 1, |c.ramOwner|))
  }

  /** Frames passed over have their bit cleared; every other frame keeps it. */
  lemma {:induction false} ClearBitsEffect(c: Control, start: nat, n: nat, f: nat)
    requires AllOwned(c) && start < |c.ramOwner| && n <= |c.ramOwner| && f < |c.ramOwner|
    requires forall g, h :: 0 <= g < h < |c.ramOwner| ==> c.ramOwner[g] != c.ramOwner[h]
    ensures HasPage(ClearBits(c, start, n), f)
    ensures UseBit(ClearBits(c, start, n), f) ==
            if exists d :: 0 <= d < n && ClockFrame(start, d, |c.ramOwner|) == f then 0 else UseBit(c, f)
  {
    assert HasPage(c, f);
    if n > 0 {
      ClearBitsEffect(c, start, n - 1, f);
      var g := ClockFrame(start, n - 1, |c.ramOwner|);
      var before := ClearBits(c, start, n - 1);
      if g == f {
        assert ClockFrame(start, n - 1, |c.ramOwner|) == f;
      } else {
        assert c.ramOwner[g] != c.ramOwner[f];
        assert HasPage(c, g);
        if exists d :: 0 <= d < n && ClockFrame(start, d, |c.ramOwner|) == f {
          var d :| 0 <= d < n && ClockFrame(start, d, |c.ramOwner|) == f;
          assert d < n - 1;
        }
      }
    }
  }

  /** Where a sweep of the clock begins: at the hand, or at frame 0 if the hand has run off the end. */
  ghost function ClockStart(c: Control): nat {
    if c.hand < |c.ramUsed| then c.hand else 0
  }

  /** The CLOCK choice `v`, after passing `n` frames, in the state `c'` it leaves: the first frame from
      the hand whose bit is clear, or the starting frame again when none was. */
  ghost predicate ClockVictim(c: Control, v: Page, n: nat, c': Control) {
    var size := |c.ramOwner|;
    var start := ClockStart(c);
    && AllOwned(c)
    && n <= size
    && size > 0
    && (forall d :: 0 <= d < n ==> UseBit(c, ClockFrame(start, d, size)) != 0)
    && (n < size ==> UseBit(c, ClockFrame(start, n, size)) == 0)
    && v == c.ramOwner[ClockFrame(start, n, size)].page
    && c' == ClearBits(c, start, n).(hand := ClockFrame(start, n, size) + 1)
  }

  /** From `c` to `c'` only use bits, which stay bits, and the hand have changed. */
  ghost predicate OnlyBits(c: Control, c': Control) {
    && c' == c.(patotas := c'.patotas, hand := c'.hand)
    && |c'.patotas| == |c.patotas|
    && (forall k :: 0 <= k < |c.patotas| ==> SameHead(c.patotas[k], c'.patotas[k]))
    && (forall q :: IsPage(c.patotas, q) ==>
          && RowAt(c'.patotas, q) == RowAt(c.patotas, q).(used := RowAt(c'.patotas, q).used)
          && (RowAt(c'.patotas, q).used == 0 || RowAt(c'.patotas, q).used == RowAt(c.patotas, q).used))
  }

  lemma OnlyBitsFrames(c: Control, c': Control)
    requires FramesOk(c) && OnlyBits(c, c')
    ensures FramesOk(c')
  {
    forall g | 0 <= g < |c'.ramOwner| ensures OwnedRam(c', g) {
      assert OwnedRam(c, g);
    }
    forall s | 0 <= s < |c'.swapOwner| ensures OwnedSwap(c', s) {
      assert OwnedSwap(c, s);
    }
    forall q | IsPage(c'.patotas, q) ensures Placed(c', q) {
      assert IsPage(c.patotas, q);
      assert Placed(c, q);
    }
  }

  lemma OnlyBitsOk(c: Control, c': Control, flat: seq<seq<Byte>>, ram: seq<Byte>, swap: seq<Byte>, p: nat)
    requires MemoryOk(c, flat, ram, swap, p) && OnlyBits(c, c') && c'.hand <= |c.ramUsed|
    ensures MemoryOk(c', flat, ram, swap, p)
  {
    OnlyBitsFrames(c, c');
    forall q | Resident(c'.patotas, q) ensures Stamped(c', q) {
      assert IsPage(c.patotas, q);
      assert Stamped(c, q);
    }
    SameLocations(c, c', flat, ram, swap, p);
  }

  datatype Policy = Lru | Clock

  /** A victim of the policy, in the state its selection leaves. */
  ghost predicate Victim(policy: Policy, c: Control, v: Page, c': Control) {
    match policy
    case Lru => LruVictim(c, v) && c' == c
    case Clock => exists n :: ClockVictim(c, v, n, c')
  }

  /** The selection is determined by the state. */
  lemma VictimUnique(policy: Policy, c: Control, v: Page, c1: Control, w: Page, c2: Control)
    requires Victim(policy, c, v, c1) && Victim(policy, c, w, c2)
    ensures v == w && c1 == c2
  {
    if policy.Clock? {
      var n :| ClockVictim(c, v, n, c1);
      var m :| ClockVictim(c, w, m, c2);
      assert n == m;
    }
  }

  /** What a fault does is determined by the state. */
  lemma FaultUnique(policy: Policy, c: Control, pg: Page, a: Control, b: Control)
    requires FaultStep(policy, c, pg, a) && FaultStep(policy, c, pg, b)
    ensures a == b
  {
    hide Victim, FirstFree, PageIn, PageOut, Exchange, Faultable, Placed, RowAt;
    if FirstFree(c.ramUsed) >= |c.ramUsed| {
      var v, c1 :| Victim(policy, c, v, c1) && Evicted(c1, pg, v, a);
      var w, c2 :| Victim(policy, c, w, c2) && Evicted(c2, pg, w, b);
      VictimUnique(policy, c, v, c1, w, c2);
    }
  }

  /** A fault now would evict `v`. */
  ghost predicate WouldEvict(policy: Policy, c: Control, v: Page) {
    && FirstFree(c.ramUsed) == |c.ramUsed|
    && exists c1 :: Victim(policy, c, v, c1)
  }

  lemma WouldEvictOnly(policy: Policy, c: Control, v: Page, c1: Control, w: Page)
    requires Victim(policy, c, v, c1) && FirstFree(c.ramUsed) == |c.ramUsed|
    ensures WouldEvict(policy, c, w) <==> w == v
  {
    if WouldEvict(policy, c, w) {
      var c2 :| Victim(policy, c, w, c2);
      VictimUnique(policy, c, v, c1, w, c2);
    }
  }

  /** Under LRU, with two frames or more, the page touched last is never the victim of the next fault,
      provided something has been touched since the last admission before it. */
  lemma LruSparesTheLatest(c: Control, v: Page)
    requires FramesOk(c) && StampsOk(c) && |c.ramUsed| >= 2
    requires Resident(c.patotas, v) && RowAt(c.patotas, v).stamp == c.counter - 1 && c.admitted < c.counter - 1
    requires Touched(c, v) && DistinctOwners(c.patotas)
    ensures !WouldEvict(Lru, c, v)
  {
    if WouldEvict(Lru, c, v) {
      FullMeansOwned(c);
      assert Placed(c, v);
      var f := if RowAt(c.patotas, v).ramFrame == 0 then 1 else 0;
      assert HasPage(c, f) && OwnedRam(c, f);
      var q := c.ramOwner[f].page;
      assert Stamped(c, q);
      if Touched(c, q) {
        TouchedStampsDistinct(c, v, q);
      }
    }
  }

  lemma FullMeansOwned(c: Control)
    requires FramesOk(c) && FirstFree(c.ramUsed) == |c.ramUsed|
    ensures AllOwned(c)
  {
    forall f | 0 <= f < |c.ramOwner| ensures HasPage(c, f) {
      assert OwnedRam(c, f);
    }
  }

  /** What a page fault does. A free RAM frame is used if there is one; otherwise a victim goes to the
      first free swap frame, and if there is none either the two pages trade places. */
  ghost predicate FaultStep(policy: Policy, c: Control, pg: Page, c': Control) {
    && Faultable(c, pg) && Placed(c, pg)
    && |c.ramUsed| == |c.ramOwner| && |c.swapUsed| == |c.swapOwner|
    && var f := FirstFree(c.ramUsed);
       if f < |c.ramUsed| then c' == PageIn(c, pg, f)
       else exists v, c1 :: Victim(policy, c, v, c1) && Evicted(c1, pg, v, c')
  }

  ghost predicate Evicted(c1: Control, pg: Page, v: Page, c': Control) {
    && IsPage(c1.patotas, v) && IsPage(c1.patotas, pg)
    && |c1.ramOwner| == |c1.ramUsed| && |c1.swapOwner| == |c1.swapUsed|
    && 0 <= RowAt(c1.patotas, v).ramFrame < |c1.ramUsed|
    && 0 <= RowAt(c1.patotas, pg).swapFrame < |c1.swapUsed|
    && v != pg
    && var s := FirstFree(c1.swapUsed);
       if s < |c1.swapUsed| then
         c' == PageIn(PageOut(c1, v, s), pg, RowAt(c1.patotas, v).ramFrame)
       else
         c' == Exchange(c1, pg, v)
  }

  // ----- What every access leaves alone ----------------------------------------------------------------

  ghost predicate SameHead(a: Patota, b: Patota) {
    && b == a.(rows := b.rows)
    && |a.rows| == |b.rows|
  }

  /** From `c` to `c'` only the placement of pages changed, except that the pages of patota `i`
      numbered above `from` up to `to` gained `extra` occupants each. */
  ghost predicate Follows(c: Control, c': Control, i: nat, from: int, to: int, extra: int) {
    && |c.patotas| == |c'.patotas|
    && (forall k :: 0 <= k < |c.patotas| ==> SameHead(c.patotas[k], c'.patotas[k]))
    && (forall q :: IsPage(c.patotas, q) ==>
          RowAt(c'.patotas, q).occupants ==
          RowAt(c.patotas, q).occupants + if q.pat == i && from < q.num <= to then extra else 0)
    && c'.released == c.released
    && c'.admitted == c.admitted
    && c.counter <= c'.counter
    && |c'.ramUsed| == |c.ramUsed|
    && |c'.swapUsed| == |c.swapUsed|
  }

  ghost predicate Quiet(c: Control, c': Control) {
    Follows(c, c', 0, 0, 0, 0)
  }

  lemma FollowsTrans(a: Control, b: Control, c: Control, i: nat, x: int, y: int, z: int, extra: int)
    requires Follows(a, b, i, x, y, extra) && Follows(b, c, i, y, z, extra) && x <= y <= z
    ensures Follows(a, c, i, x, z, extra)
  {
    forall k | 0 <= k < |a.patotas| ensures SameHead(a.patotas[k], c.patotas[k]) {
      assert SameHead(a.patotas[k], b.patotas[k]) && SameHead(b.patotas[k], c.patotas[k]);
    }
    forall q | IsPage(a.patotas, q)
      ensures RowAt(c.patotas, q).occupants ==
              RowAt(a.patotas, q).occupants + if q.pat == i && x < q.num <= z then extra else 0
    {
      assert SameHead(a.patotas[q.pat], b.patotas[q.pat]);
      assert IsPage(b.patotas, q);
    }
  }

  lemma FollowsSelf(c: Control, i: nat, at: int, extra: int)
    ensures Follows(c, c, i, at, at, extra)
  {
  }

  /** Standing still for one of the two halves. */
  lemma QuietFollows(c: Control, c': Control, i: nat, at: int, extra: int)
    requires Quiet(c, c')
    ensures Follows(c, c', i, at, at, extra)
  {
  }

  lemma FollowsQuiet(c: Control, c': Control, i: nat, from: int, to: int)
    requires Follows(c, c', i, from, to, 0)
    ensures Quiet(c, c')
  {
  }

  lemma SetRowCommute(ps: seq<Patota>, a: Page, ra: Row, b: Page, rb: Row)
    requires IsPage(ps, a) && IsPage(ps, b) && a != b
    ensures SetRow(SetRow(ps, a, ra), b, rb) == SetRow(SetRow(ps, b, rb), a, ra)
  {
    var l, r := SetRow(SetRow(ps, a, ra), b, rb), SetRow(SetRow(ps, b, rb), a, ra);
    forall i | 0 <= i < |ps| ensures l[i] == r[i] {
      assert l[i].rows == r[i].rows;
    }
  }

  lemma SetRowOver(ps: seq<Patota>, a: Page, r1: Row, r2: Row)
    requires IsPage(ps, a)
    ensures SetRow(SetRow(ps, a, r1), a, r2) == SetRow(ps, a, r2)
  {
    var l, r := SetRow(SetRow(ps, a, r1), a, r2), SetRow(ps, a, r2);
    assert l[a.pat].rows == r[a.pat].rows;
  }

  // ----- What a fault guarantees -----------------------------------------------------------------------

  lemma {:induction false} ClearBitsOnlyBits(c: Control, start: nat, n: nat)
    requires AllOwned(c) && start < |c.ramOwner| && n <= |c.ramOwner|
    ensures OnlyBits(c, ClearBits(c, start, n))
  {
    if n > 0 {
      ClearBitsOnlyBits(c, start, n - 1);
      ClearOneMore(c, ClearBits(c, start, n - 1), ClockFrame(start, n - 1, |c.ramOwner|));
    }
  }

  lemma ClearOneMore(c: Control, c': Control, f: nat)
    requires OnlyBits(c, c')
    ensures OnlyBits(c, ClearBit(c', f))
  {
    var c2 := ClearBit(c', f);
    forall k | 0 <= k < |c.patotas| ensures SameHead(c.patotas[k], c2.patotas[k]) {
      assert SameHead(c.patotas[k], c'.patotas[k]);
    }
  }

  lemma OnlyBitsQuiet(c: Control, c': Control)
    requires OnlyBits(c, c')
    ensures Quiet(c, c')
  {
  }

  /** Replacing `v` by `pg` in RAM. */
  lemma EvictedEffect(c: Control, pg: Page, v: Page, c': Control)
    requires Evicted(c, pg, v, c') && v != pg && RowAt(c.patotas, pg).ramFrame == -1
    ensures Quiet(c, c') && Resident(c'.patotas, pg) && !Resident(c'.patotas, v)
    ensures RowAt(c'.patotas, pg).ramFrame == RowAt(c.patotas, v).ramFrame
    ensures forall q :: IsPage(c.patotas, q) && q != v && q != pg ==> RowAt(c'.patotas, q) == RowAt(c.patotas, q)
  {
  }

  lemma VictimEffect(policy: Policy, c: Control, v: Page, c1: Control)
    requires FramesOk(c) && AllOwned(c) && |c.ramOwner| > 0
    requires Victim(policy, c, v, c1)
    ensures Quiet(c, c1) && Resident(c.patotas, v)
    ensures forall q :: IsPage(c.patotas, q) ==> IsPage(c1.patotas, q) && RowAt(c1.patotas, q).ramFrame == RowAt(c.patotas, q).ramFrame
  {
    if policy.Clock? {
      var n :| ClockVictim(c, v, n, c1);
      ClearBitsOnlyBits(c, ClockStart(c), n);
      OnlyBitsQuiet(c, c1);
      assert OwnedRam(c, ClockFrame(ClockStart(c), n, |c.ramOwner|));
    }
  }

  /** `pg` has taken the RAM frame of `v`, and every other resident page has stayed where it was. */
  ghost predicate Replaced(c: Control, pg: Page, v: Page, c': Control) {
    && Resident(c.patotas, v)
    && IsPage(c'.patotas, v) && !Resident(c'.patotas, v)
    && Resident(c'.patotas, pg)
    && RowAt(c'.patotas, pg).ramFrame == RowAt(c.patotas, v).ramFrame
    && forall q :: Resident(c.patotas, q) && q != v ==>
         IsPage(c'.patotas, q) && RowAt(c'.patotas, q).ramFrame == RowAt(c.patotas, q).ramFrame
  }

  lemma ReplacedFrom(c: Control, c1: Control, c': Control, pg: Page, v: Page)
    requires Faultable(c, pg) && Resident(c.patotas, v) && Quiet(c, c1)
    requires forall q :: IsPage(c.patotas, q) ==>
               IsPage(c1.patotas, q) && RowAt(c1.patotas, q).ramFrame == RowAt(c.patotas, q).ramFrame
    requires Evicted(c1, pg, v, c')
    ensures Quiet(c, c') && Replaced(c, pg, v, c')
  {
    EvictedEffect(c1, pg, v, c');
    FollowsTrans(c, c1, c', 0, 0, 0, 0, 0);
  }

  /** With RAM full, the fault replaces exactly a victim of the policy. */
  lemma FullFaultEffect(policy: Policy, c: Control, pg: Page, c': Control)
    requires FramesOk(c) && Faultable(c, pg) && |c.ramUsed| > 0
    requires FaultStep(policy, c, pg, c') && FirstFree(c.ramUsed) == |c.ramUsed|
    ensures AllOwned(c) && Quiet(c, c')
    ensures exists v, c1 :: Victim(policy, c, v, c1) && Replaced(c, pg, v, c')
  {
    FullMeansOwned(c);
    var v, c1 :| Victim(policy, c, v, c1) && Evicted(c1, pg, v, c');
    VictimEffect(policy, c, v, c1);
    ReplacedFrom(c, c1, c', pg, v);
  }

  /** With a RAM frame free, the fault takes nothing out of RAM. */
  lemma FreeFaultEffect(policy: Policy, c: Control, pg: Page, c': Control)
    requires FramesOk(c) && Faultable(c, pg) && |c.ramUsed| > 0
    requires FaultStep(policy, c, pg, c') && FirstFree(c.ramUsed) < |c.ramUsed|
    ensures Quiet(c, c') && Resident(c'.patotas, pg)
    ensures forall q :: Resident(c.patotas, q) ==> IsPage(c'.patotas, q) && RowAt(c'.patotas, q) == RowAt(c.patotas, q)
  {
    assert Placed(c, pg);
  }
}

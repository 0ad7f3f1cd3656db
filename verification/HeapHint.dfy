/** The best bet of kmalloc: the run its search starts from, and the run it remembers for the next one. */
module HeapHint {
  import opened Sums
  import opened HeapLayout
  import opened HeapSpec
  import opened HeapTheorems
  import opened HeapMemory

  function IndexOf(runs: seq<Run>, a: nat): (i: nat)
    ensures i <= |runs|
    ensures i < |runs| ==> runs[i].addr == a
    ensures i == |runs| ==> forall k: nat | k < |runs| :: runs[k].addr != a
  {
    if runs == [] then 0
    else if runs[0].addr == a then 0
    else 1 + IndexOf(runs[1..], a)
  }

  // Where the search starts: at the hint when that run's free total exceeds the need, else at the root.
  function HintIndex(runs: seq<Run>, bestBet: nat, need: nat): (i: nat)
    ensures i <= |runs|
  {
    var i := IndexOf(runs, bestBet);
    if bestBet != 0 && i < |runs| && runs[i].Size() - runs[i].Usage() > need then i else 0
  }

  lemma {:induction false} HintOfNoRuns(runs0: seq<Run>, runs: seq<Run>, bestBet: nat, need: nat)
    requires runs0 != [] ==> runs == runs0
    ensures HintIndex(runs0, bestBet, need) == if runs0 == [] then 0 else HintIndex(runs, bestBet, need)
  {
  }

  // ------------------------------------------------------------ the best bet while kmalloc searches

  function Spare(r: Run): int { r.Size() - r.Usage() }

  // The hint, and the free total it is remembered with.
  datatype Bet = Bet(hint: nat, best: int)

  // How much is free in the run the hint names, nothing for no hint.
  function SpareOf(runs: seq<Run>, hint: nat): int {
    var k := IndexOf(runs, hint);
    if hint == 0 || k == |runs| then 0 else Spare(runs[k])
  }

  // One round of the search: the run replaces the hint when it has more to spare.
  function Look(r: Run, b: Bet): Bet {
    if b.best < Spare(r) then Bet(r.addr, Spare(r)) else b
  }

  // From run i on: to the end of the list, from the hint (back) once more from the root, and then on to a new
  // run, which is looked at unless Case 1 fell through to it.
  function BetFrom(runs: seq<Run>, need: nat, added: Run, i: nat, back: bool, b: Bet): Bet
    requires i < |runs|
    decreases back, |runs| - i, 1
  {
    BetOn(runs, need, added, i, back, Look(runs[i], b))
  }

  // The same once run i has been looked at.
  function BetOn(runs: seq<Run>, need: nat, added: Run, i: nat, back: bool, b: Bet): Bet
    requires i < |runs|
    decreases back, |runs| - i, 0
  {
    if FirstGap(runs[i], need, 0) <= |runs[i].blocks| then b
    else if i + 1 < |runs| then BetFrom(runs, need, added, i + 1, back, b)
    else if back then BetFrom(runs, need, added, 0, false, b)
    else if added.addr == 0 || Spare(runs[i]) < need then b
    else Look(added, b)
  }

  // The run the page hook would add.
  function NewRun(req: nat, grant: nat): Run { Run(grant, PagesFor(Padded(req)), []) }

  // Started at the hint, the search comes back to the root once.
  function Back(runs: seq<Run>, hint: nat, need: nat): bool { hint != 0 && SpareOf(runs, hint) > need }

  // The hint after a kmalloc of req bytes, when the page hook would answer grant.
  function HintAfterMalloc(runs: seq<Run>, hint: nat, req: nat, grant: nat): nat {
    var need, b := Padded(req) + HEADER, Bet(hint, SpareOf(runs, hint));
    if runs == [] then
      if grant == 0 then hint else Look(NewRun(req, grant), b).hint
    else
      BetFrom(runs, need, NewRun(req, grant), HintIndex(runs, hint, need), Back(runs, hint, need), b).hint
  }

  // Where a search goes on that run i did not satisfy: the next run, the root, or a new run (asked).
  predicate HopsTo(n: nat, i: nat, back: bool, i': nat, back': bool, asked: nat) {
    if i + 1 < n then i' == i + 1 && back' == back && asked == 0
    else if back then i' == 0 && !back' && asked == 0
    else !back' && asked == 1
  }

  // The search stands at run i, or at the new run, and will end with the hint goal.
  ghost predicate Betting(runs: seq<Run>, need: nat, added: Run, i: nat, back: bool, asked: nat, b: Bet, goal: nat) {
    if asked == 0 then i < |runs| && BetFrom(runs, need, added, i, back, b).hint == goal
    else Look(added, b).hint == goal
  }

  // The same once that run has been looked at.
  ghost predicate Looked(runs: seq<Run>, need: nat, added: Run, i: nat, back: bool, asked: nat, b: Bet, goal: nat) {
    if asked == 0 then i < |runs| && BetOn(runs, need, added, i, back, b).hint == goal
    else b.hint == goal
  }

  lemma {:induction false} LooksAt(runs: seq<Run>, need: nat, added: Run, i: nat, back: bool, asked: nat, b: Bet,
                                   goal: nat, r: Run)
    requires Betting(runs, need, added, i, back, asked, b, goal) && r == if asked == 0 then runs[i] else added
    ensures Looked(runs, need, added, i, back, asked, Look(r, b), goal)
  {
  }

  lemma {:induction false} BetTakenHere(runs: seq<Run>, need: nat, added: Run, i: nat, back: bool, asked: nat, b: Bet,
                                        goal: nat)
    requires Looked(runs, need, added, i, back, asked, b, goal)
    requires asked == 0 ==> FirstGap(runs[i], need, 0) <= |runs[i].blocks|
    ensures b.hint == goal
  {
  }

  lemma {:induction false} BetHops(runs: seq<Run>, need: nat, added: Run, i: nat, back: bool, b: Bet, goal: nat,
                                   i': nat, back': bool, asked: nat)
    requires Looked(runs, need, added, i, back, 0, b, goal) && !runs[i].Fits(need)
    requires HopsTo(|runs|, i, back, i', back', asked)
    ensures if asked == 1 && (added.addr == 0 || Spare(runs[i]) < need) then b.hint == goal
            else Betting(runs, need, added, i', back', asked, b, goal)
  {
  }

  // ------------------------------------------------------------ what the search remembers

  // The runs looked at from run i on: up to the first that takes the block, or all of them from i on and
  // then, coming from the hint, those from the root on.
  predicate SeenFrom(runs: seq<Run>, need: nat, i: nat, back: bool, j: nat)
    requires i < |runs|
  {
    var k := FirstRun(runs, need, i);
    if k < |runs| then i <= j <= k else i <= j < |runs| || (back && j < |runs| && j <= FirstRun(runs, need, 0))
  }

  // The new run is looked at too, when Case 5 leads to it.
  predicate AddedSeen(runs: seq<Run>, need: nat, added: Run) {
    runs != [] && FirstRun(runs, need, 0) == |runs| && added.addr != 0 && Spare(runs[|runs| - 1]) >= need
  }

  // b' is the best of b and the runs seen, and b itself unless one of them is better.
  ghost predicate BestSeen(runs: seq<Run>, need: nat, added: Run, i: nat, back: bool, b: Bet, b': Bet)
    requires i < |runs|
  {
    && b'.best >= b.best
    && (forall j: nat | SeenFrom(runs, need, i, back, j) :: Spare(runs[j]) <= b'.best)
    && (AddedSeen(runs, need, added) ==> Spare(added) <= b'.best)
    && (b' == b
        || (exists j: nat :: SeenFrom(runs, need, i, back, j) && b' == Bet(runs[j].addr, Spare(runs[j])))
        || (AddedSeen(runs, need, added) && b' == Bet(added.addr, Spare(added))))
    && (b' != b ==> b'.best > b.best)
  }

  lemma {:induction false} SeenHere(runs: seq<Run>, need: nat, i: nat, back: bool)
    requires i < |runs|
    ensures SeenFrom(runs, need, i, back, i)
  {
  }

  lemma {:induction false} SeenNext(runs: seq<Run>, need: nat, i: nat, back: bool, i': nat, back': bool, j: nat)
    requires i < |runs| && FirstGap(runs[i], need, 0) > |runs[i].blocks|
    requires if i + 1 < |runs| then i' == i + 1 && back' == back else back && i' == 0 && !back'
    ensures SeenFrom(runs, need, i, back, j) <==> j == i || SeenFrom(runs, need, i', back', j)
  {
  }

  lemma {:induction false} FirstRunPast(runs: seq<Run>, need: nat, i: nat)
    requires i < |runs| && FirstGap(runs[i], need, 0) > |runs[i].blocks| && FirstRun(runs, need, 0) >= i
    ensures FirstRun(runs, need, 0) >= i + 1
  {
  }

  // One run more in front.
  lemma {:induction false} BestSeenFurther(runs: seq<Run>, need: nat, added: Run, i: nat, back: bool, i': nat,
                                           back': bool, b: Bet, b': Bet)
    requires i < |runs| && FirstGap(runs[i], need, 0) > |runs[i].blocks|
    requires if i + 1 < |runs| then i' == i + 1 && back' == back else back && i' == 0 && !back'
    requires BestSeen(runs, need, added, i', back', Look(runs[i], b), b')
    ensures BestSeen(runs, need, added, i, back, b, b')
  {
    SeenHere(runs, need, i, back);
    forall j: nat ensures SeenFrom(runs, need, i, back, j) <==> j == i || SeenFrom(runs, need, i', back', j) {
      SeenNext(runs, need, i, back, i', back', j);
    }
  }

  // The last run of the search, in front of the new one.
  lemma {:induction false} BestSeenLast(runs: seq<Run>, need: nat, added: Run, i: nat, b: Bet)
    requires i + 1 == |runs| && FirstRun(runs, need, 0) == |runs| && FirstRun(runs, need, i) == |runs|
    ensures var b' := Look(runs[i], b);
            BestSeen(runs, need, added, i, false, b,
                     if added.addr == 0 || Spare(runs[i]) < need then b' else Look(added, b'))
  {
    SeenHere(runs, need, i, false);
  }

  lemma {:induction false} BestSeenTaken(runs: seq<Run>, need: nat, added: Run, i: nat, back: bool, b: Bet)
    requires i < |runs| && FirstGap(runs[i], need, 0) <= |runs[i].blocks|
    ensures BestSeen(runs, need, added, i, back, b, Look(runs[i], b))
  {
    SeenHere(runs, need, i, back);
    assert FirstRun(runs, need, i) == i;
  }

  ghost predicate FindsBest(runs: seq<Run>, need: nat, added: Run, i: nat, back: bool, b: Bet)
    requires i < |runs|
  {
    BestSeen(runs, need, added, i, back, b, BetFrom(runs, need, added, i, back, b))
  }

  lemma {:induction false} BestTaken(runs: seq<Run>, need: nat, added: Run, i: nat, back: bool, b: Bet)
    requires i < |runs| && FirstGap(runs[i], need, 0) <= |runs[i].blocks|
    ensures FindsBest(runs, need, added, i, back, b)
  {
    BestSeenTaken(runs, need, added, i, back, b);
  }

  lemma {:induction false} BestFurther(runs: seq<Run>, need: nat, added: Run, i: nat, back: bool, i': nat,
                                       back': bool, b: Bet)
    requires i < |runs| && FirstGap(runs[i], need, 0) > |runs[i].blocks|
    requires if i + 1 < |runs| then i' == i + 1 && back' == back else back && i' == 0 && !back'
    requires FindsBest(runs, need, added, i', back', Look(runs[i], b))
    ensures FindsBest(runs, need, added, i, back, b)
  {
    BestSeenFurther(runs, need, added, i, back, i', back', b, BetFrom(runs, need, added, i', back', Look(runs[i], b)));
  }

  lemma {:induction false} BestLast(runs: seq<Run>, need: nat, added: Run, i: nat, b: Bet)
    requires i + 1 == |runs| && FirstGap(runs[i], need, 0) > |runs[i].blocks| && FirstRun(runs, need, 0) >= i
    ensures FindsBest(runs, need, added, i, false, b)
  {
    FirstRunPast(runs, need, i);
    assert FirstRun(runs, need, i) == FirstRun(runs, need, |runs|) == |runs|;
    BestSeenLast(runs, need, added, i, b);
  }

  lemma {:induction false} BetFromIsBest(runs: seq<Run>, need: nat, added: Run, i: nat, back: bool, b: Bet)
    requires i < |runs| && (!back ==> FirstRun(runs, need, 0) >= i)
    ensures FindsBest(runs, need, added, i, back, b)
    decreases back, |runs| - i
  {
    if FirstGap(runs[i], need, 0) <= |runs[i].blocks| {
      BestTaken(runs, need, added, i, back, b);
    } else if i + 1 < |runs| {
      if !back { FirstRunPast(runs, need, i); }
      BetFromIsBest(runs, need, added, i + 1, back, Look(runs[i], b));
      BestFurther(runs, need, added, i, back, i + 1, back, b);
    } else if back {
      BetFromIsBest(runs, need, added, 0, false, Look(runs[i], b));
      BestFurther(runs, need, added, i, back, 0, false, b);
    } else {
      BestLast(runs, need, added, i, b);
    }
  }

  // ------------------------------------------------------------ when the hint is the run with the most free memory

  // No run has more to spare than the one the hint names; with no hint, no run has any.
  ghost predicate MostFree(runs: seq<Run>, hint: nat) {
    forall i: nat | i < |runs| :: Spare(runs[i]) <= SpareOf(runs, hint)
  }

  // The hint is null or a linked run.
  ghost predicate Hints(runs: seq<Run>, hint: nat) { hint == 0 || IndexOf(runs, hint) < |runs| }

  predicate Seen(runs: seq<Run>, hint: nat, need: nat, j: nat) {
    runs != [] && SeenFrom(runs, need, HintIndex(runs, hint, need), Back(runs, hint, need), j)
  }

  lemma {:induction false} IndexIs(runs: seq<Run>, i: nat)
    requires Sound(runs) && i < |runs|
    ensures IndexOf(runs, runs[i].addr) == i && runs[i].addr != 0
  {
    assert RunSound(runs, i);
    var k := IndexOf(runs, runs[i].addr);
    if k != i { RunAddrsDiffer(runs, i, k); }
  }

  lemma {:induction false} SameIndex(runs: seq<Run>, rs: seq<Run>, a: nat)
    requires |runs| <= |rs| && forall i: nat | i < |runs| :: runs[i].addr == rs[i].addr
    requires IndexOf(runs, a) < |runs| || forall i: nat | |runs| <= i < |rs| :: rs[i].addr != a
    ensures IndexOf(rs, a) == if IndexOf(runs, a) < |runs| then IndexOf(runs, a) else |rs|
  {
    if runs != [] && runs[0].addr != a { SameIndex(runs[1..], rs[1..], a); }
  }

  // What the search ends with, the hint being one of the runs there were or the new one.
  lemma {:induction false} HintIsBest(runs: seq<Run>, hint: nat, req: nat, grant: nat)
    requires Sound(runs) && Hints(runs, hint) && runs != []
    ensures var need, added := Padded(req) + HEADER, NewRun(req, grant);
            var h, best := HintAfterMalloc(runs, hint, req, grant), BestOf(runs, hint, req, grant);
            && (forall j: nat | Seen(runs, hint, need, j) :: Spare(runs[j]) <= best)
            && ((Hints(runs, h) && best == SpareOf(runs, h))
                || (AddedSeen(runs, need, added) && h == grant && best == Spare(added)))
            && (AddedSeen(runs, need, added) ==> Spare(added) <= best)
  {
    var need, added := Padded(req) + HEADER, NewRun(req, grant);
    var i, back, b := HintIndex(runs, hint, need), Back(runs, hint, need), Bet(hint, SpareOf(runs, hint));
    BetFromIsBest(runs, need, added, i, back, b);
    var b' := BetFrom(runs, need, added, i, back, b);
    if j: nat :| SeenFrom(runs, need, i, back, j) && b' == Bet(runs[j].addr, Spare(runs[j])) { IndexIs(runs, j); }
  }

  function BestOf(runs: seq<Run>, hint: nat, req: nat, grant: nat): int
    requires runs != []
  {
    var need := Padded(req) + HEADER;
    BetFrom(runs, need, NewRun(req, grant), HintIndex(runs, hint, need), Back(runs, hint, need),
            Bet(hint, SpareOf(runs, hint))).best
  }

  // Run k has given up need bytes, the others are as they were.
  ghost predicate Filled(runs: seq<Run>, rs: seq<Run>, k: nat, need: nat) {
    && k < |runs| == |rs| && rs[k].addr == runs[k].addr && Spare(rs[k]) == Spare(runs[k]) - need
    && forall j: nat | j < |runs| && j != k :: rs[j] == runs[j]
  }

  lemma {:induction false} PlacedSpare(runs: seq<Run>, k: nat, req: nat)
    requires k < |runs| && FirstGap(runs[k], Padded(req) + HEADER, 0) <= |runs[k].blocks|
    ensures Filled(runs, InRun(runs, k, req).runs, k, Padded(req) + HEADER)
  {
    PlaceTotals(runs, k, FirstGap(runs[k], Padded(req) + HEADER, 0), Padded(req), req);
  }

  lemma {:induction false} AddedSpare(runs: seq<Run>, grant: nat, req: nat)
    ensures var rs := InNewRun(runs, grant, req).runs;
            && |rs| == |runs| + 1 && rs[..|runs|] == runs && rs[|runs|].addr == grant
            && Spare(rs[|runs|]) == Spare(NewRun(req, grant)) - (Padded(req) + HEADER)
  {
    SingleBlock(Block(grant + HEADER, Padded(req), req));
    assert Used([]) == 0;
  }

  lemma {:induction false} GrantIsNew(runs: seq<Run>, grant: nat, pages: nat, j: nat)
    requires Sound(runs) && grant != 0 && Grantable(runs, grant, pages) && pages >= 1 && j < |runs|
    ensures runs[j].addr != grant
  {
    assert RunSound(runs, j) && Apart(runs[j], Run(grant, pages, []));
  }

  // What has to hold of the runs before a kmalloc: no run that is not looked at has more to spare than the
  // hint h it leaves, and if h is the run that takes the block no other run has more than will be left there.
  // A new run, looked at or not, counts with what the block leaves of it.
  ghost predicate StaysBest(runs: seq<Run>, hint: nat, req: nat, grant: nat) {
    var need, h, left := Padded(req) + HEADER, HintAfterMalloc(runs, hint, req, grant), Spare(NewRun(req, grant));
    var k := Choose(runs, need, HintIndex(runs, hint, need));
    if k < |runs| then
      var taken := h == runs[k].addr;
      forall j: nat | j < |runs| && j != k && (taken || !Seen(runs, hint, need, j)) ::
        Spare(runs[j]) <= SpareOf(runs, h) - if taken then need else 0
    else if grant == 0 then true
    else if h == grant then forall j: nat | j < |runs| :: Spare(runs[j]) <= left - need
    else left - need <= SpareOf(runs, h)
  }

  lemma {:induction false} FilledSpareOf(runs: seq<Run>, rs: seq<Run>, k: nat, need: nat, h: nat)
    requires Sound(runs) && Filled(runs, rs, k, need) && Hints(runs, h)
    ensures SpareOf(rs, h) == SpareOf(runs, h) - if h == runs[k].addr then need else 0
  {
    SameIndex(runs, rs, h);
    IndexIs(runs, k);
  }

  lemma {:induction false} MostFreeFilled(runs: seq<Run>, rs: seq<Run>, k: nat, need: nat, h: nat)
    requires Sound(runs) && Filled(runs, rs, k, need) && Hints(runs, h) && Spare(runs[k]) <= SpareOf(runs, h)
    ensures var left := SpareOf(runs, h) - if h == runs[k].addr then need else 0;
            MostFree(rs, h) <==> forall j: nat | j < |runs| && j != k :: Spare(runs[j]) <= left
  {
    FilledSpareOf(runs, rs, k, need, h);
    IndexIs(runs, k);
    if forall j: nat | j < |runs| && j != k :: Spare(runs[j]) <= SpareOf(rs, h) {
      forall j: nat | j < |rs| ensures Spare(rs[j]) <= SpareOf(rs, h) {
        if j != k { assert rs[j] == runs[j]; }
      }
    } else {
      var j: nat :| j < |runs| && j != k && Spare(runs[j]) > SpareOf(rs, h);
      assert rs[j] == runs[j];
    }
  }

  lemma {:induction false} BestAfterPlacing(runs: seq<Run>, hint: nat, req: nat, grant: nat, k: nat)
    requires Sound(runs) && Hints(runs, hint)
    requires k == Choose(runs, Padded(req) + HEADER, HintIndex(runs, hint, Padded(req) + HEADER)) < |runs|
    ensures MostFree(InRun(runs, k, req).runs, HintAfterMalloc(runs, hint, req, grant)) <==>
            StaysBest(runs, hint, req, grant)
  {
    var need, h := Padded(req) + HEADER, HintAfterMalloc(runs, hint, req, grant);
    HintIsBest(runs, hint, req, grant);
    SeenTaker(runs, hint, need);
    PlacedSpare(runs, k, req);
    MostFreeFilled(runs, InRun(runs, k, req).runs, k, need, h);
  }

  // The run that takes the block was looked at.
  lemma {:induction false} SeenTaker(runs: seq<Run>, hint: nat, need: nat)
    requires Choose(runs, need, HintIndex(runs, hint, need)) < |runs|
    ensures Seen(runs, hint, need, Choose(runs, need, HintIndex(runs, hint, need)))
  {
  }

  // With no room anywhere every run is looked at.
  lemma {:induction false} AllSeen(runs: seq<Run>, hint: nat, need: nat, j: nat)
    requires Choose(runs, need, HintIndex(runs, hint, need)) == |runs| && j < |runs|
    ensures Seen(runs, hint, need, j)
  {
    assert FirstRun(runs, need, 0) == |runs|;
  }

  // No run given up anything: the hint is the best of all of them.
  lemma {:induction false} BestAfterNothing(runs: seq<Run>, hint: nat, req: nat)
    requires Sound(runs) && Hints(runs, hint)
    requires Choose(runs, Padded(req) + HEADER, HintIndex(runs, hint, Padded(req) + HEADER)) == |runs|
    ensures MostFree(runs, HintAfterMalloc(runs, hint, req, 0))
  {
    if runs != [] {
      HintIsBest(runs, hint, req, 0);
      var need := Padded(req) + HEADER;
      forall j: nat | j < |runs| ensures Seen(runs, hint, need, j) { AllSeen(runs, hint, need, j); }
    }
  }

  lemma {:induction false} GrownSpareOf(runs: seq<Run>, grant: nat, req: nat, h: nat)
    requires Sound(runs) && grant != 0 && Grantable(runs, grant, PagesFor(Padded(req)))
    requires h == grant || Hints(runs, h)
    ensures var rs := InNewRun(runs, grant, req).runs;
            SpareOf(rs, h) == if h == grant then Spare(NewRun(req, grant)) - (Padded(req) + HEADER)
                              else SpareOf(runs, h)
  {
    var rs := InNewRun(runs, grant, req).runs;
    AddedSpare(runs, grant, req);
    forall j: nat | j < |runs| ensures runs[j].addr == rs[j].addr != grant {
      assert rs[..|runs|][j] == rs[j];
      GrantIsNew(runs, grant, PagesFor(Padded(req)), j);
    }
    if h == grant { assert rs[|runs|].addr == grant; } else { SameIndex(runs, rs, h); }
  }

  lemma {:induction false} MostFreeGrown(runs: seq<Run>, grant: nat, req: nat, h: nat)
    requires Sound(runs) && grant != 0 && Grantable(runs, grant, PagesFor(Padded(req)))
    requires h == grant || Hints(runs, h)
    ensures var rs, left := InNewRun(runs, grant, req).runs, Spare(NewRun(req, grant)) - (Padded(req) + HEADER);
            MostFree(rs, h) <==>
            (forall j: nat | j < |runs| :: Spare(runs[j]) <= SpareOf(rs, h)) && left <= SpareOf(rs, h)
  {
    var rs := InNewRun(runs, grant, req).runs;
    AddedSpare(runs, grant, req);
    forall j: nat | j < |runs| ensures rs[j] == runs[j] { assert rs[..|runs|][j] == rs[j]; }
  }

  lemma {:induction false} BestAfterGrowing(runs: seq<Run>, hint: nat, req: nat, grant: nat)
    requires Sound(runs) && Hints(runs, hint) && (runs == [] ==> hint == 0)
    requires grant != 0 && Grantable(runs, grant, PagesFor(Padded(req)))
    requires Choose(runs, Padded(req) + HEADER, HintIndex(runs, hint, Padded(req) + HEADER)) == |runs|
    ensures MostFree(InNewRun(runs, grant, req).runs, HintAfterMalloc(runs, hint, req, grant)) <==>
            StaysBest(runs, hint, req, grant)
  {
    var need, h := Padded(req) + HEADER, HintAfterMalloc(runs, hint, req, grant);
    if runs != [] {
      HintIsBest(runs, hint, req, grant);
      forall j: nat | j < |runs| ensures Seen(runs, hint, need, j) { AllSeen(runs, hint, need, j); }
    } else {
      NewRunHasRoom(req, grant);
    }
    GrownSpareOf(runs, grant, req, h);
    MostFreeGrown(runs, grant, req, h);
  }

  lemma {:induction false} NewRunHasRoom(req: nat, grant: nat)
    ensures Spare(NewRun(req, grant)) >= Padded(req) + HEADER
  {
    assert Used([]) == 0;
  }

  // kmalloc leaves the hint at the run with the most free memory exactly then.
  lemma {:induction false} HintIsMostFreeExactly(runs: seq<Run>, hint: nat, req: nat, grant: nat)
    requires Sound(runs) && Hints(runs, hint) && (runs == [] ==> hint == 0)
    requires grant != 0 ==> Grantable(runs, grant, PagesFor(Padded(req)))
    ensures var o := Malloc(runs, HintIndex(runs, hint, Padded(req) + HEADER), req, grant);
            MostFree(o.runs, HintAfterMalloc(runs, hint, req, grant)) <==> StaysBest(runs, hint, req, grant)
  {
    var k := Choose(runs, Padded(req) + HEADER, HintIndex(runs, hint, Padded(req) + HEADER));
    if k < |runs| {
      BestAfterPlacing(runs, hint, req, grant, k);
    } else if grant == 0 {
      BestAfterNothing(runs, hint, req);
    } else {
      BestAfterGrowing(runs, hint, req, grant);
    }
  }

  const RUN_A: nat := 0x100000
  const RUN_B: nat := 0x200000

  function Small(): Run { Run(RUN_A, 16, [Block(RUN_A + 24, 33, 1)]) }

  function Large(): Run { Run(RUN_B, 25, [Block(RUN_B + 24, 100032, 100000)]) }

  function SmallAndFull(): Run { Run(RUN_A, 16, [Block(RUN_A + 24, 33, 1), Block(RUN_A + 81, 65032, 65000)]) }

  lemma {:induction false} SparesOfThese()
    ensures Spare(Small()) == 65455 && Spare(Large()) == 2320 && Spare(SmallAndFull()) == 399
    ensures PagesFor(Padded(1)) == 16 && PagesFor(Padded(100000)) == 25
  {
    SingleBlock(Small().blocks[0]);
    SingleBlock(Large().blocks[0]);
    assert SmallAndFull().blocks == Small().blocks + [Block(RUN_A + 81, 65032, 65000)];
    SingleBlock(Block(RUN_A + 81, 65032, 65000));
    SumOfAppend(Small().blocks, [Block(RUN_A + 81, 65032, 65000)], Footprint);
  }

  lemma {:induction false} NoGapFor(r: Run, need: nat)
    requires |r.blocks| == 1 && r.Gap(0) < need && r.Gap(1) < need
    ensures FirstGap(r, need, 0) == 2
  {
  }

  lemma {:induction false} SecondGapFor(r: Run, need: nat)
    requires |r.blocks| == 1 && r.Gap(0) < need <= r.Gap(1)
    ensures FirstGap(r, need, 0) == 1
  {
  }

  lemma {:induction false} FirstCall()
    ensures Malloc([], 0, 1, RUN_A).runs == [Small()] && HintAfterMalloc([], 0, 1, RUN_A) == RUN_A
  {
    SparesOfThese();
    NewRunHasRoom(1, RUN_A);
  }

  lemma {:induction false} SecondCall()
    ensures Malloc([Small()], HintIndex([Small()], RUN_A, 100056), 100000, RUN_B).runs == [Small(), Large()]
    ensures HintAfterMalloc([Small()], RUN_A, 100000, RUN_B) == RUN_A
  {
    SparesOfThese();
    NoGapFor(Small(), 100056);
    assert IndexOf([Small()], RUN_A) == 0 && SpareOf([Small()], RUN_A) == 65455;
    assert FirstRun([Small()], 100056, 1) == 1 && FirstRun([Small()], 100056, 0) == 1;
    assert Look(Small(), Bet(RUN_A, 65455)) == Bet(RUN_A, 65455);
  }

  lemma {:induction false} ThirdCall()
    ensures var runs := [Small(), Large()];
            && Malloc(runs, HintIndex(runs, RUN_A, 65056), 65000, 0).runs == [SmallAndFull(), Large()]
            && HintAfterMalloc(runs, RUN_A, 65000, 0) == RUN_A
  {
    var runs := [Small(), Large()];
    SparesOfThese();
    SecondGapFor(Small(), 65056);
    assert IndexOf(runs, RUN_A) == 0 && SpareOf(runs, RUN_A) == 65455;
    assert Choose(runs, 65056, 0) == 0;
    assert PlaceAt(Small(), 1, 65032, 65000) == SmallAndFull();
    assert Look(Small(), Bet(RUN_A, 65455)) == Bet(RUN_A, 65455);
  }

  // Three calls from boot: one byte, then 100000 bytes that need a run of their own, then 65000 bytes in the
  // first run. The hint stays at the first run, with 399 bytes free, while the second has 2320.
  lemma {:induction false} HintCanBeWrong()
    ensures var runs1 := Malloc([], 0, 1, RUN_A).runs;
            var hint1 := HintAfterMalloc([], 0, 1, RUN_A);
            var runs2 := Malloc(runs1, HintIndex(runs1, hint1, 100056), 100000, RUN_B).runs;
            var hint2 := HintAfterMalloc(runs1, hint1, 100000, RUN_B);
            var runs3 := Malloc(runs2, HintIndex(runs2, hint2, 65056), 65000, 0).runs;
            var hint3 := HintAfterMalloc(runs2, hint2, 65000, 0);
            SpareOf(runs3, hint3) == 399 && |runs3| == 2 && Spare(runs3[1]) == 2320 && !MostFree(runs3, hint3)
  {
    FirstCall();
    SecondCall();
    ThirdCall();
    SparesOfThese();
    assert IndexOf([SmallAndFull(), Large()], RUN_A) == 0;
    assert [SmallAndFull(), Large()][1] == Large();
  }
}

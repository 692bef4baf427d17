/** The invariant of the handle free lists and what follows from it for every run. */
module HandleFreeListProof {
  import opened HandleFreeList

  /** Where a created handle is. Every handle is in exactly one place. */
  datatype Place =
    | Main                 // on the main free list
    | Alt                  // on the alternative free list
    | Moving               // taken off the alternative list, not yet reversed
    | Pushing              // reversed or freshly created, about to be pushed
    | Owned                // handed out
    | Freeing(t: Tid)      // being freed by thread t

  /** Witness of the invariant: the lists behind the links, and the place of each handle. */
  datatype Lists = Lists(
    main: seq<int>, alt: seq<int>, moving: seq<int>, pushing: seq<int>, where: seq<Place>)

  /** Starting at `head` the links run through q and end with `end`. */
  ghost predicate Chain(next: seq<int>, head: int, q: seq<int>, end: int)
    decreases q
  {
    if q == [] then head == end
    else 0 <= head < |next| && head == q[0] && Chain(next, next[head], q[1..], end)
  }

  /** q lists, once each, the handles whose place is p. */
  ghost predicate ListsDistinct(q: seq<int>, where: seq<Place>, p: Place) {
    && (forall i, j :: 0 <= i < j < |q| ==> q[i] != q[j])
    && (forall i :: 0 <= i < |q| ==> 0 <= q[i] < |where| && where[q[i]] == p)
    && (forall h :: 0 <= h < |where| && where[h] == p ==> h in q)
  }

  ghost predicate Placed(created: nat, owned: set<int>, g: Lists) {
    && |g.where| == created
    && ListsDistinct(g.main, g.where, Main)
    && ListsDistinct(g.alt, g.where, Alt)
    && ListsDistinct(g.moving, g.where, Moving)
    && ListsDistinct(g.pushing, g.where, Pushing)
    && (forall h :: h in owned <==> 0 <= h < |g.where| && g.where[h] == Owned)
  }

  ghost predicate Chained(next: seq<int>, free: int, main: seq<int>, alt: int, altList: seq<int>) {
    && Chain(next, free, main, INVALID)
    && Chain(next, alt, altList, INVALID)
  }

  /** The thread inside the table lock, and only it, has private entries, in the shape its program
      point needs. */
  ghost predicate Private(s: State, g: Lists) {
    && (forall t :: t in s.pcs ==> (InSlow(s.pcs[t]) <==> s.lock == t))
    && (s.lock == -1 ==> g.moving == [] && g.pushing == [])
    && (s.lock != -1 ==> s.lock in s.pcs && Shape(s.pcs[s.lock], s.next, g.moving, g.pushing))
  }

  ghost predicate Shape(pc: Pc, next: seq<int>, moving: seq<int>, pushing: seq<int>) {
    match pc
    case TestLocks(first, i) => i <= LOCKS && Taken(first, next, moving, pushing)
    case ReadFlags(first) => Taken(first, next, moving, pushing)
    case Shortcut(first) => Taken(first, next, moving, pushing)
    case Reverse(first, index, last, _, _) =>
      && moving != [] && Chain(next, index, moving, INVALID)
      && Chain(next, last, pushing, INVALID)
      && first == if pushing == [] then index else pushing[|pushing| - 1]
    case PushRead(head, tail, _) => Ready(head, tail, next, moving, pushing)
    case PushLink(head, tail, _, _) => Ready(head, tail, next, moving, pushing)
    case PushCas(head, tail, seen, _) =>
      Ready(head, tail, next, moving, pushing) && Chain(next, head, pushing, seen)
    case _ => moving == [] && pushing == []
  }

  ghost predicate Taken(first: int, next: seq<int>, moving: seq<int>, pushing: seq<int>) {
    moving != [] && Chain(next, first, moving, INVALID) && pushing == []
  }

  ghost predicate Ready(head: int, tail: int, next: seq<int>, moving: seq<int>, pushing: seq<int>) {
    && moving == [] && pushing != [] && tail == pushing[|pushing| - 1]
    && Chain(next, head, pushing[..|pushing| - 1], tail)
  }

  ghost predicate Freed(s: State, g: Lists) {
    && (forall t :: t in s.pcs && IsFreeing(s.pcs[t]) ==>
          && 0 <= s.pcs[t].h < |g.where| == |s.next| && g.where[s.pcs[t].h] == Freeing(t)
          && (s.pcs[t].FreeCas? ==> s.next[s.pcs[t].h] == s.pcs[t].seen))
    && (forall h :: 0 <= h < |g.where| && g.where[h].Freeing? ==>
          g.where[h].t in s.pcs && IsFreeing(s.pcs[g.where[h].t]) && s.pcs[g.where[h].t].h == h)
  }

  /** Handle h is on its way back to the main list past the test of its striped lock. */
  ghost predicate Returning(s: State, g: Lists, h: int)
    requires 0 <= h < |g.where|
  {
    match g.where[h]
    case Moving => s.lock in s.pcs && !(s.pcs[s.lock].TestLocks? && s.pcs[s.lock].i <= Stripe(h))
    case Pushing => true
    case Freeing(t) => t in s.pcs && (s.pcs[t].FreeRead? || s.pcs[t].FreeLink? || s.pcs[t].FreeCas?)
                       && s.pcs[t].toMain
    case _ => false
  }

  /** A handle about to be popped is a handle. */
  predicate GuessOk(pc: Pc) {
    match pc
    case LockStripe(fv) => fv != INVALID
    case Recheck(fv) => fv != INVALID
    case PushRead(_, _, cont) => cont != TryHandle(INVALID)
    case PushLink(_, _, _, cont) => cont != TryHandle(INVALID)
    case PushCas(_, _, _, cont) => cont != TryHandle(INVALID)
    case LeaveSlow(cont) => cont != TryHandle(INVALID)
    case _ => true
  }

  /** While a thread that has passed the re-check holds the stripe of its handle, the handle is not
      returning; and if it is still on the main list, the link the thread read is current. */
  ghost predicate Pinned(s: State, g: Lists) {
    && (forall t :: t in s.pcs ==> GuessOk(s.pcs[t]))
    && (forall t :: t in s.pcs && (s.pcs[t].ReadNext? || s.pcs[t].CasHead?) ==>
          PinnedBy(s, g, s.pcs[t]))
  }

  ghost predicate PinnedBy(s: State, g: Lists, pc: Pc)
    requires pc.ReadNext? || pc.CasHead?
  {
    && 0 <= pc.fv < |g.where| == |s.next|
    && !Returning(s, g, pc.fv)
    && (pc.CasHead? && g.where[pc.fv] == Main ==> s.next[pc.fv] == pc.nx)
  }

  ghost predicate Inv(s: State, g: Lists) {
    && |g.where| == |s.next| <= MAX_HANDLES
    && Placed(|s.next|, s.owned, g)
    && Chained(s.next, s.free, g.main, s.alt, g.alt)
    && Private(s, g)
    && Freed(s, g)
    && Pinned(s, g)
  }

  // ---------------------------------------------------------------------------------------------
  // Lists and places
  // ---------------------------------------------------------------------------------------------

  lemma ListsPop(q: seq<int>, where: seq<Place>, p: Place, p2: Place)
    requires ListsDistinct(q, where, p) && q != [] && p2 != p
    ensures ListsDistinct(q[1..], where[q[0] := p2], p)
  {
    forall h | 0 <= h < |where| && where[q[0] := p2][h] == p
      ensures h in q[1..]
    {
      var i :| 0 <= i < |q| && q[i] == h;
      assert q[1..][i - 1] == h;
    }
  }

  lemma ListsPush(q: seq<int>, where: seq<Place>, p: Place, h: int)
    requires ListsDistinct(q, where, p) && 0 <= h < |where| && where[h] != p
    ensures ListsDistinct([h] + q, where[h := p], p)
  {
    assert ([h] + q)[0] == h;
    forall k | 0 <= k < |where| && where[h := p][k] == p
      ensures k in [h] + q
    {
      if k != h { assert k in q; }
    }
  }

  lemma ListsOther(q: seq<int>, where: seq<Place>, p: Place, h: int, p2: Place)
    requires ListsDistinct(q, where, p) && 0 <= h < |where| && where[h] != p && p2 != p
    ensures ListsDistinct(q, where[h := p2], p)
  {
  }

  function Relabel(where: seq<Place>, p: Place, p2: Place): (r: seq<Place>)
    ensures |r| == |where|
    ensures forall i :: 0 <= i < |where| ==> r[i] == if where[i] == p then p2 else where[i]
  {
    seq(|where|, i requires 0 <= i < |where| => if where[i] == p then p2 else where[i])
  }

  /** Everything at p joins what is listed at p2. */
  lemma ListsJoin(q: seq<int>, q2: seq<int>, where: seq<Place>, p: Place, p2: Place)
    requires ListsDistinct(q, where, p) && ListsDistinct(q2, where, p2) && p != p2
    ensures ListsDistinct(q + q2, Relabel(where, p, p2), p2)
    ensures ListsDistinct([], Relabel(where, p, p2), p)
  {
    forall h | 0 <= h < |where| && Relabel(where, p, p2)[h] == p2
      ensures h in q + q2
    {
      assert h in q || h in q2;
    }
  }

  lemma ListsElsewhere(q: seq<int>, where: seq<Place>, p: Place, p2: Place, p3: Place)
    requires ListsDistinct(q, where, p3) && p3 != p && p3 != p2
    ensures ListsDistinct(q, Relabel(where, p, p2), p3)
  {
  }

  lemma {:induction false} ChainWrite(next: seq<int>, head: int, q: seq<int>, end: int, h: int, v: int)
    requires Chain(next, head, q, end) && 0 <= h < |next| && h !in q
    ensures Chain(next[h := v], head, q, end)
    decreases q
  {
    if q != [] {
      assert forall k :: k in q[1..] ==> k in q;
      ChainWrite(next, next[head], q[1..], end, h, v);
    }
  }

  lemma {:induction false} ChainExtend(next: seq<int>, more: seq<int>, head: int, q: seq<int>, end: int)
    requires Chain(next, head, q, end)
    ensures Chain(next + more, head, q, end)
    decreases q
  {
    if q != [] {
      ChainExtend(next, more, next[head], q[1..], end);
    }
  }

  lemma {:induction false} ChainConcat(next: seq<int>, h1: int, q1: seq<int>, h2: int, q2: seq<int>, end: int)
    requires Chain(next, h1, q1, h2) && Chain(next, h2, q2, end)
    ensures Chain(next, h1, q1 + q2, end)
    decreases q1
  {
    if q1 == [] {
      assert q1 + q2 == q2;
    } else {
      ChainConcat(next, next[h1], q1[1..], h2, q2, end);
      assert (q1 + q2)[1..] == q1[1..] + q2;
    }
  }

  /** All but the last entry of a chain lead to that entry. */
  lemma {:induction false} ChainFront(next: seq<int>, head: int, q: seq<int>, end: int)
    requires Chain(next, head, q, end) && q != []
    ensures Chain(next, head, q[..|q| - 1], q[|q| - 1])
    decreases q
  {
    if |q| > 1 {
      ChainFront(next, next[head], q[1..], end);
      assert q[1..][..|q| - 2] == q[..|q| - 1][1..];
    }
  }

  // ---------------------------------------------------------------------------------------------
  // Each step keeps the invariant
  // ---------------------------------------------------------------------------------------------

  /** Only the program point of t differs. */
  ghost predicate OnlyMoves(s: State, t: Tid, s': State) {
    && t in s.pcs && s'.pcs.Keys == s.pcs.Keys
    && forall u :: u in s.pcs && u != t ==> s'.pcs[u] == s.pcs[u]
  }

  /** Nothing happened to h that a thread pinning it could notice. */
  ghost predicate Quiet(s: State, g: Lists, s': State, g': Lists, h: int)
    requires 0 <= h < |g.where| == |s.next| <= |g'.where| == |s'.next|
  {
    && (Returning(s', g', h) ==> Returning(s, g, h) || StripeFree(s, Stripe(h)))
    && (g'.where[h] == Main ==>
          (g.where[h] == Main && s'.next[h] == s.next[h]) || Returning(s, g, h))
  }

  lemma PinnedKept(s: State, g: Lists, t: Tid, s': State, g': Lists)
    requires Pinned(s, g) && OnlyMoves(s, t, s')
    requires |g.where| == |s.next| <= |g'.where| == |s'.next|
    requires forall h :: 0 <= h < |g.where| ==> Quiet(s, g, s', g', h)
    requires GuessOk(s'.pcs[t])
    requires s'.pcs[t].ReadNext? || s'.pcs[t].CasHead? ==> PinnedBy(s', g', s'.pcs[t])
    ensures Pinned(s', g')
  {
    forall u | u in s'.pcs && (s'.pcs[u].ReadNext? || s'.pcs[u].CasHead?)
      ensures PinnedBy(s', g', s'.pcs[u])
    {
      if u != t {
        assert PinnedBy(s, g, s.pcs[u]);
        assert Quiet(s, g, s', g', s.pcs[u].fv);
        assert HoldsStripe(s.pcs[u], Stripe(s.pcs[u].fv));
      }
    }
  }

  lemma PinnedAt(s: State, g: Lists, t: Tid)
    requires Pinned(s, g) && t in s.pcs && (s.pcs[t].ReadNext? || s.pcs[t].CasHead?)
    ensures PinnedBy(s, g, s.pcs[t])
  {
  }

  /** The thread that steps is not freeing, and no handle starts or stops being freed. */
  lemma FreedKept(s: State, g: Lists, t: Tid, s': State, g': Lists)
    requires Freed(s, g) && OnlyMoves(s, t, s')
    requires |g.where| == |s.next| <= |g'.where| == |s'.next|
    requires !IsFreeing(s.pcs[t]) && !IsFreeing(s'.pcs[t])
    requires forall h :: 0 <= h < |g.where| && (g.where[h].Freeing? || g'.where[h].Freeing?) ==>
               g'.where[h] == g.where[h] && s'.next[h] == s.next[h]
    requires forall h :: |g.where| <= h < |g'.where| ==> !g'.where[h].Freeing?
    ensures Freed(s', g')
  {
  }

  /** The thread that steps is outside the table lock. */
  lemma PrivateKept(s: State, g: Lists, t: Tid, s': State, g': Lists)
    requires Private(s, g) && OnlyMoves(s, t, s')
    requires !InSlow(s.pcs[t]) && !InSlow(s'.pcs[t])
    requires s'.lock == s.lock && s'.next == s.next
    requires g'.moving == g.moving && g'.pushing == g.pushing
    ensures Private(s', g')
  {
  }

  /** A step that only moves a thread that is neither freeing, pinned nor in the slow path. */
  lemma Outside(s: State, g: Lists, t: Tid, pc: Pc)
    requires Inv(s, g) && t in s.pcs
    requires !InSlow(s.pcs[t]) && !InSlow(pc) && !IsFreeing(s.pcs[t]) && !IsFreeing(pc)
    requires GuessOk(pc)
    requires pc.ReadNext? || pc.CasHead? ==> PinnedBy(s, g, pc)
    ensures Inv(At(s, t, pc), g)
  {
    hide Placed, Chained, Private, Freed, Pinned;
    var s' := At(s, t, pc);
    PrivateKept(s, g, t, s', g);
    FreedKept(s, g, t, s', g);
    PinnedKept(s, g, t, s', g);
  }

  lemma HeadOfMain(created: nat, owned: set<int>, g: Lists, next: seq<int>, free: int, alt: int)
    requires Placed(created, owned, g) && Chained(next, free, g.main, alt, g.alt) && free != INVALID
    ensures g.main != [] && g.main[0] == free && 0 <= free < created && g.where[free] == Main
    ensures 0 <= free < |next| && Chained(next, next[free], g.main[1..], alt, g.alt)
  {
  }

  lemma PassRecheck(s: State, g: Lists, t: Tid, fv: int)
    requires Inv(s, g) && t in s.pcs && s.pcs[t] == Recheck(fv) && s.free == fv && fv != INVALID
    ensures Inv(At(s, t, ReadNext(fv)), g)
  {
    hide Placed, Chained, Private, Freed, Pinned;
    HeadOfMain(|s.next|, s.owned, g, s.next, s.free, s.alt);
    Outside(s, g, t, ReadNext(fv));
  }

  lemma LoadNext(s: State, g: Lists, t: Tid, fv: int)
    requires Inv(s, g) && t in s.pcs && s.pcs[t] == ReadNext(fv) && 0 <= fv < |s.next|
    ensures Inv(At(s, t, CasHead(fv, s.next[fv])), g)
  {
    hide Placed, Chained, Private, Freed, Pinned;
    PinnedAt(s, g, t);
    Outside(s, g, t, CasHead(fv, s.next[fv]));
  }

  /** The places after the first handle of the main list has been handed out. */
  lemma PlacedPop(created: nat, owned: set<int>, g: Lists)
    requires Placed(created, owned, g) && g.main != []
    ensures 0 <= g.main[0] < created && g.where[g.main[0]] == Main
    ensures Placed(created, owned + {g.main[0]},
              g.(main := g.main[1..], where := g.where[g.main[0] := Owned]))
  {
    ListsPop(g.main, g.where, Main, Owned);
    ListsOther(g.alt, g.where, Alt, g.main[0], Owned);
    ListsOther(g.moving, g.where, Moving, g.main[0], Owned);
    ListsOther(g.pushing, g.where, Pushing, g.main[0], Owned);
  }

  /** A successful pop takes exactly the first handle off the main list. */
  lemma PopHead(s: State, g: Lists, t: Tid, fv: int, nx: int, s': State) returns (g': Lists)
    requires Inv(s, g) && t in s.pcs && s.pcs[t] == CasHead(fv, nx) && s.free == fv
    requires s' == At(s, t, UnlockStripe(fv, true)).(free := nx, owned := s.owned + {fv})
    ensures g.main != [] && g.main[0] == fv && 0 <= fv < |g.where| && g.where[fv] == Main
    ensures g' == g.(main := g.main[1..], where := g.where[fv := Owned])
    ensures Inv(s', g')
  {
    hide Placed, Chained, Private, Freed, Pinned;
    PinnedAt(s, g, t);
    HeadOfMain(|s.next|, s.owned, g, s.next, s.free, s.alt);
    g' := g.(main := g.main[1..], where := g.where[fv := Owned]);
    PlacedPop(|s.next|, s.owned, g);
    PrivateKept(s, g, t, s', g');
    FreedKept(s, g, t, s', g');
    PinnedKept(s, g, t, s', g');
  }

  // ---------------------------------------------------------------------------------------------
  // Client steps and PhpFreeHandleTableEntry
  // ---------------------------------------------------------------------------------------------

  lemma ShapeWrite(pc: Pc, next: seq<int>, moving: seq<int>, pushing: seq<int>, h: int, v: int)
    requires Shape(pc, next, moving, pushing) && 0 <= h < |next| && h !in moving && h !in pushing
    ensures Shape(pc, next[h := v], moving, pushing)
  {
    match pc {
      case TestLocks(first, i) => ChainWrite(next, first, moving, INVALID, h, v);
      case ReadFlags(first) => ChainWrite(next, first, moving, INVALID, h, v);
      case Shortcut(first) => ChainWrite(next, first, moving, INVALID, h, v);
      case Reverse(first, index, last, _, _) =>
        ChainWrite(next, index, moving, INVALID, h, v);
        ChainWrite(next, last, pushing, INVALID, h, v);
      case PushRead(head, tail, _) => ReadyWrite(head, tail, next, moving, pushing, h, v);
      case PushLink(head, tail, _, _) => ReadyWrite(head, tail, next, moving, pushing, h, v);
      case PushCas(head, tail, seen, _) =>
        ReadyWrite(head, tail, next, moving, pushing, h, v);
        ChainWrite(next, head, pushing, seen, h, v);
      case _ =>
    }
  }

  lemma ReadyWrite(head: int, tail: int, next: seq<int>, moving: seq<int>, pushing: seq<int>, h: int, v: int)
    requires Ready(head, tail, next, moving, pushing) && 0 <= h < |next|
    requires h !in pushing[..|pushing| - 1]
    ensures Ready(head, tail, next[h := v], moving, pushing)
  {
    ChainWrite(next, head, pushing[..|pushing| - 1], tail, h, v);
  }

  /** Writing the link of a handle that is owned or being freed disturbs no list. */
  lemma WriteKeeps(s: State, g: Lists, h: int, v: int)
    requires Placed(|s.next|, s.owned, g) && Chained(s.next, s.free, g.main, s.alt, g.alt)
    requires 0 <= h < |s.next| && (g.where[h] == Owned || g.where[h].Freeing?)
    ensures Chained(s.next[h := v], s.free, g.main, s.alt, g.alt)
    ensures h !in g.moving && h !in g.pushing && h !in g.main
  {
    ChainWrite(s.next, s.free, g.main, INVALID, h, v);
    ChainWrite(s.next, s.alt, g.alt, INVALID, h, v);
  }

  lemma PrivateWrite(s: State, g: Lists, t: Tid, s': State, h: int, v: int)
    requires Private(s, g) && OnlyMoves(s, t, s') && s'.lock == s.lock
    requires !InSlow(s.pcs[t]) && !InSlow(s'.pcs[t])
    requires 0 <= h < |s.next| && s'.next == s.next[h := v]
    requires h !in g.moving && h !in g.pushing
    ensures Private(s', g)
  {
    if s.lock != -1 {
      ShapeWrite(s.pcs[s.lock], s.next, g.moving, g.pushing, h, v);
    }
  }

  lemma UseEntryKeeps(s: State, g: Lists, t: Tid, h: int, v: int, s': State)
    requires Inv(s, g) && t in s.pcs && h in s.owned && UsesEntry(s, h, v, s')
    ensures Inv(s', g)
  {
    hide Chained, Private, Freed, Pinned;
    assert g.where[h] == Owned;
    WriteKeeps(s, g, h, v);
    hide Placed;
    UseEntryPrivate(s, g, h, v, s');
    UseEntryFreed(s, g, h, v, s');
    PinnedKept(s, g, t, s', g) by {
      UseEntryPinned(s, g, t, h, v, s');
    }
  }

  lemma UseEntryPrivate(s: State, g: Lists, h: int, v: int, s': State)
    requires Private(s, g) && UsesEntry(s, h, v, s') && h !in g.moving && h !in g.pushing
    ensures Private(s', g)
  {
    if s.lock != -1 {
      ShapeWrite(s.pcs[s.lock], s.next, g.moving, g.pushing, h, v);
    }
  }

  lemma UseEntryFreed(s: State, g: Lists, h: int, v: int, s': State)
    requires Freed(s, g) && UsesEntry(s, h, v, s') && |g.where| == |s.next| && g.where[h] == Owned
    ensures Freed(s', g)
  {
  }

  lemma UseEntryPinned(s: State, g: Lists, t: Tid, h: int, v: int, s': State)
    requires Pinned(s, g) && UsesEntry(s, h, v, s') && t in s.pcs
    requires |g.where| == |s.next| && g.where[h] == Owned
    ensures GuessOk(s'.pcs[t])
    ensures s'.pcs[t].ReadNext? || s'.pcs[t].CasHead? ==> PinnedBy(s', g, s'.pcs[t])
  {
    if s.pcs[t].ReadNext? || s.pcs[t].CasHead? {
      assert PinnedBy(s, g, s.pcs[t]);
    }
  }

  lemma GiveBackKeeps(s: State, g: Lists, t: Tid, h: int, s': State) returns (g': Lists)
    requires Inv(s, g) && t in s.pcs && s.pcs[t].Idle? && h in s.owned && GivesBack(s, t, h, s')
    ensures Inv(s', g')
  {
    hide Chained, Private, Freed, Pinned;
    assert g.where[h] == Owned;
    g' := g.(where := g.where[h := Freeing(t)]);
    ListsOther(g.main, g.where, Main, h, Freeing(t));
    ListsOther(g.alt, g.where, Alt, h, Freeing(t));
    ListsOther(g.moving, g.where, Moving, h, Freeing(t));
    ListsOther(g.pushing, g.where, Pushing, h, Freeing(t));
    assert Placed(|s'.next|, s'.owned, g');
    hide Placed;
    PrivateKept(s, g, t, s', g');
    GiveBackFreed(s, g, t, h, s', g');
    PinnedKept(s, g, t, s', g');
  }

  lemma GiveBackFreed(s: State, g: Lists, t: Tid, h: int, s': State, g': Lists)
    requires Freed(s, g) && t in s.pcs && s.pcs[t].Idle? && GivesBack(s, t, h, s')
    requires 0 <= h < |g.where| == |s.next| && g.where[h] == Owned
    requires g' == g.(where := g.where[h := Freeing(t)])
    ensures Freed(s', g')
  {
  }

  lemma FreeingAt(s: State, g: Lists, t: Tid)
    requires Freed(s, g) && t in s.pcs && IsFreeing(s.pcs[t])
    ensures 0 <= s.pcs[t].h < |g.where| == |s.next| && g.where[s.pcs[t].h] == Freeing(t)
    ensures s.pcs[t].FreeCas? ==> s.next[s.pcs[t].h] == s.pcs[t].seen
    ensures forall k :: 0 <= k < |g.where| && k != s.pcs[t].h ==> g.where[k] != Freeing(t)
  {
  }

  /** A thread goes on freeing its handle, without having written its link. */
  lemma FreeingOn(s: State, g: Lists, t: Tid, pc: Pc)
    requires Inv(s, g) && t in s.pcs && IsFreeing(s.pcs[t]) && IsFreeing(pc) && pc.h == s.pcs[t].h
    requires !pc.FreeCas? && !pc.FreeChoose?
    requires if s.pcs[t].FreeChoose? then pc.toMain ==> StripeFree(s, Stripe(pc.h))
             else pc.toMain == s.pcs[t].toMain
    ensures Inv(At(s, t, pc), g)
  {
    hide Placed, Chained, Private, Freed, Pinned;
    var s' := At(s, t, pc);
    FreeingAt(s, g, t);
    PrivateKept(s, g, t, s', g);
    FreeingOnFreed(s, g, t, pc);
    PinnedKept(s, g, t, s', g);
  }

  lemma FreeingOnFreed(s: State, g: Lists, t: Tid, pc: Pc)
    requires Freed(s, g) && t in s.pcs && IsFreeing(s.pcs[t]) && IsFreeing(pc) && pc.h == s.pcs[t].h
    requires !pc.FreeCas?
    ensures Freed(At(s, t, pc), g)
  {
  }

  lemma FreeLinkKeeps(s: State, g: Lists, t: Tid, s': State)
    requires Inv(s, g) && t in s.pcs && s.pcs[t].FreeLink? && FreeStep(s, t, s')
    ensures Inv(s', g)
  {
    hide Placed, Chained, Private, Freed, Pinned;
    var h := s.pcs[t].h;
    FreeingAt(s, g, t);
    WriteKeeps(s, g, h, s.pcs[t].seen);
    PrivateWrite(s, g, t, s', h, s.pcs[t].seen);
    FreeLinkFreed(s, g, t, s');
    PinnedKept(s, g, t, s', g);
  }

  lemma FreeLinkFreed(s: State, g: Lists, t: Tid, s': State)
    requires Freed(s, g) && t in s.pcs && s.pcs[t].FreeLink? && FreeStep(s, t, s')
    ensures Freed(s', g)
  {
  }

  /** h, being freed, put at the front of the main or of the alternative list. */
  function Pushed(g: Lists, h: int, toMain: bool): Lists
    requires 0 <= h < |g.where|
  {
    if toMain then g.(main := [h] + g.main, where := g.where[h := Main])
    else g.(alt := [h] + g.alt, where := g.where[h := Alt])
  }

  lemma PlacedPush(created: nat, owned: set<int>, g: Lists, h: int, toMain: bool)
    requires Placed(created, owned, g) && 0 <= h < created && g.where[h].Freeing?
    ensures Placed(created, owned, Pushed(g, h, toMain))
  {
    var p := if toMain then Main else Alt;
    if toMain {
      ListsPush(g.main, g.where, Main, h);
      ListsOther(g.alt, g.where, Alt, h, Main);
    } else {
      ListsPush(g.alt, g.where, Alt, h);
      ListsOther(g.main, g.where, Main, h, Alt);
    }
    ListsOther(g.moving, g.where, Moving, h, p);
    ListsOther(g.pushing, g.where, Pushing, h, p);
  }

  /** The handle being freed becomes the head of the list it was pushed to. */
  lemma FreePushed(s: State, g: Lists, t: Tid, s': State) returns (g': Lists)
    requires Inv(s, g) && t in s.pcs && s.pcs[t].FreeCas? && FreeStep(s, t, s')
    requires s.pcs[t].seen == if s.pcs[t].toMain then s.free else s.alt
    ensures Inv(s', g')
  {
    hide Placed, Private, Freed, Pinned;
    var h := s.pcs[t].h;
    FreeingAt(s, g, t);
    g' := Pushed(g, h, s.pcs[t].toMain);
    PlacedPush(|s.next|, s.owned, g, h, s.pcs[t].toMain);
    assert Chained(s'.next, s'.free, g'.main, s'.alt, g'.alt);
    hide Chained;
    PrivateKept(s, g, t, s', g');
    FreePushedFreed(s, g, t, s', g');
    FreePushedQuiet(s, g, t, s');
    PinnedKept(s, g, t, s', g');
  }

  lemma FreePushedQuiet(s: State, g: Lists, t: Tid, s': State)
    requires Freed(s, g) && t in s.pcs && s.pcs[t].FreeCas? && FreeStep(s, t, s')
    requires s.pcs[t].seen == if s.pcs[t].toMain then s.free else s.alt
    requires 0 <= s.pcs[t].h < |g.where| == |s.next| && g.where[s.pcs[t].h] == Freeing(t)
    ensures forall k :: 0 <= k < |g.where| ==>
              Quiet(s, g, s', Pushed(g, s.pcs[t].h, s.pcs[t].toMain), k)
  {
  }

  lemma FreePushedFreed(s: State, g: Lists, t: Tid, s': State, g': Lists)
    requires Freed(s, g) && t in s.pcs && IsFreeing(s.pcs[t])
    requires OnlyMoves(s, t, s') && s'.pcs[t] == Idle && s'.next == s.next
    requires 0 <= s.pcs[t].h < |g.where|
    requires g'.where == g.where[s.pcs[t].h := Main] || g'.where == g.where[s.pcs[t].h := Alt]
    ensures Freed(s', g')
  {
  }

  lemma FreeKeeps(s: State, g: Lists, t: Tid, s': State) returns (g': Lists)
    requires Inv(s, g) && t in s.pcs && FreeStep(s, t, s')
    ensures Inv(s', g')
  {
    hide Inv;
    g' := g;
    match s.pcs[t] {
      case FreeChoose(h) =>
        FreeingOn(s, g, t, s'.pcs[t]);
      case FreeRead(h, toMain) =>
        FreeingOn(s, g, t, s'.pcs[t]);
      case FreeLink(_, _, _) =>
        FreeLinkKeeps(s, g, t, s');
      case FreeCas(h, toMain, seen) =>
        if (if toMain then s.free else s.alt) == seen {
          g' := FreePushed(s, g, t, s');
        } else {
          FreeingOn(s, g, t, s'.pcs[t]);
        }
    }
  }

  // ---------------------------------------------------------------------------------------------
  // The slow path: PhpMoveFreeHandleTableEntries and PhpAllocateMoreHandleTableEntries
  // ---------------------------------------------------------------------------------------------

  lemma SlowAt(s: State, g: Lists, t: Tid)
    requires Private(s, g) && t in s.pcs && InSlow(s.pcs[t])
    ensures s.lock == t && Shape(s.pcs[t], s.next, g.moving, g.pushing)
  {
  }

  lemma PrivateSlow(s: State, g: Lists, t: Tid, s': State, g': Lists)
    requires Private(s, g) && OnlyMoves(s, t, s') && s.lock == t && s'.lock == t
    requires InSlow(s'.pcs[t]) && Shape(s'.pcs[t], s'.next, g'.moving, g'.pushing)
    ensures Private(s', g')
  {
  }

  lemma GuessAt(s: State, g: Lists, t: Tid)
    requires Inv(s, g) && t in s.pcs
    ensures GuessOk(s.pcs[t]) && |g.where| == |s.next| <= MAX_HANDLES
  {
    hide Placed, Chained, Private, Freed;
  }

  /** A handle that has been taken off the alternative list is past its stripe's test. */
  predicate PastTest(pc: Pc, h: int) {
    !(pc.TestLocks? && pc.i <= Stripe(h))
  }

  /** A step inside the table lock that writes no memory. */
  lemma SlowMove(s: State, g: Lists, t: Tid, pc: Pc)
    requires Inv(s, g) && t in s.pcs && InSlow(s.pcs[t]) && InSlow(pc) && GuessOk(pc)
    requires Shape(pc, s.next, g.moving, g.pushing)
    requires forall h :: 0 <= h < |g.where| && g.where[h] == Moving && PastTest(pc, h) ==>
               PastTest(s.pcs[t], h) || StripeFree(s, Stripe(h))
    ensures Inv(At(s, t, pc), g)
  {
    hide Placed, Chained, Private, Freed, Pinned, Shape;
    var s' := At(s, t, pc);
    SlowAt(s, g, t);
    PrivateSlow(s, g, t, s', g);
    FreedKept(s, g, t, s', g);
    PinnedKept(s, g, t, s', g);
  }

  lemma EnterKeeps(s: State, g: Lists, t: Tid, s': State)
    requires Inv(s, g) && t in s.pcs && s.pcs[t].EnterSlow? && MoveStep(s, t, s')
    ensures Inv(s', g)
  {
    hide Placed, Chained, Freed, Pinned;
    assert Private(s', g);
    assert forall h :: 0 <= h < |g.where| && g.where[h] == Moving ==> s.lock != -1 by {
      PlacedNonEmpty(|s.next|, s.owned, g);
    }
    hide Private;
    FreedKept(s, g, t, s', g);
    PinnedKept(s, g, t, s', g);
  }

  lemma PlacedNonEmpty(created: nat, owned: set<int>, g: Lists)
    requires Placed(created, owned, g)
    ensures forall h :: 0 <= h < |g.where| && g.where[h] == Moving ==> g.moving != []
    ensures forall h :: 0 <= h < |g.where| && g.where[h] == Pushing ==> g.pushing != []
    ensures forall h :: 0 <= h < |g.where| && g.where[h] == Main ==> g.main != []
  {
  }

  lemma LeaveKeeps(s: State, g: Lists, t: Tid, s': State)
    requires Inv(s, g) && t in s.pcs && s.pcs[t].LeaveSlow? && GrowStep(s, t, s')
    ensures Inv(s', g)
  {
    hide Placed, Chained, Freed, Pinned;
    GuessAt(s, g, t);
    SlowAt(s, g, t);
    PlacedNonEmpty(|s.next|, s.owned, g);
    assert Private(s', g);
    hide Private;
    FreedKept(s, g, t, s', g);
    PinnedKept(s, g, t, s', g);
  }

  /** Everything placed at p now counts as placed at p2. */
  lemma PlacedRelabel(created: nat, owned: set<int>, g: Lists, p: Place, p2: Place)
    requires Placed(created, owned, g) && p != p2
    requires (p == Alt && p2 == Moving) || (p == Moving && p2 == Main) || (p == Pushing && p2 == Main)
    ensures Placed(created, owned, Relabelled(g, p, p2))
  {
    if p == Alt {
      ListsJoin(g.alt, g.moving, g.where, Alt, Moving);
    } else {
      ListsElsewhere(g.alt, g.where, p, p2, Alt);
    }
    if p == Moving {
      ListsJoin(g.moving, g.main, g.where, Moving, Main);
    } else if p == Pushing {
      ListsJoin(g.pushing, g.main, g.where, Pushing, Main);
      ListsElsewhere(g.moving, g.where, p, p2, Moving);
    } else {
      ListsElsewhere(g.main, g.where, p, p2, Main);
    }
    if p != Pushing {
      ListsElsewhere(g.pushing, g.where, p, p2, Pushing);
    }
  }

  function Relabelled(g: Lists, p: Place, p2: Place): (r: Lists)
    ensures r.where == Relabel(g.where, p, p2)
  {
    var where := Relabel(g.where, p, p2);
    if p == Alt then g.(alt := [], moving := g.alt + g.moving, where := where)
    else if p == Moving then g.(moving := [], main := g.moving + g.main, where := where)
    else g.(pushing := [], main := g.pushing + g.main, where := where)
  }

  lemma TakeKeeps(s: State, g: Lists, t: Tid, s': State) returns (g': Lists)
    requires Inv(s, g) && t in s.pcs && s.pcs[t].TakeAlt? && MoveStep(s, t, s') && s.alt != INVALID
    ensures Inv(s', g')
  {
    hide Placed, Private, Freed, Pinned;
    SlowAt(s, g, t);
    g' := Relabelled(g, Alt, Moving);
    PlacedRelabel(|s.next|, s.owned, g, Alt, Moving);
    assert g.alt + g.moving == g.alt;
    assert Chained(s'.next, s'.free, g'.main, s'.alt, g'.alt);
    assert Shape(s'.pcs[t], s'.next, g'.moving, g'.pushing);
    hide Chained, Shape;
    PrivateSlow(s, g, t, s', g');
    FreedKept(s, g, t, s', g');
    PinnedKept(s, g, t, s', g');
  }

  /** The main list is empty exactly when FreeValue is invalid. */
  lemma MainEmpty(s: State, g: Lists)
    requires Placed(|s.next|, s.owned, g) && Chained(s.next, s.free, g.main, s.alt, g.alt)
    requires |s.next| <= MAX_HANDLES
    ensures s.free == INVALID <==> g.main == []
    ensures s.alt == INVALID <==> g.alt == []
  {
  }

  lemma ShortcutKeeps(s: State, g: Lists, t: Tid, s': State) returns (g': Lists)
    requires Inv(s, g) && t in s.pcs && s.pcs[t].Shortcut? && MoveStep(s, t, s') && s.free == INVALID
    ensures Inv(s', g')
  {
    hide Placed, Private, Freed, Pinned;
    SlowAt(s, g, t);
    MainEmpty(s, g);
    g' := Relabelled(g, Moving, Main);
    PlacedRelabel(|s.next|, s.owned, g, Moving, Main);
    assert g.moving + g.main == g.moving;
    assert Chained(s'.next, s'.free, g'.main, s'.alt, g'.alt);
    assert Shape(s'.pcs[t], s'.next, g'.moving, g'.pushing);
    hide Chained, Shape;
    PrivateSlow(s, g, t, s', g');
    FreedKept(s, g, t, s', g');
    PinnedKept(s, g, t, s', g');
  }

  lemma PushedKeeps(s: State, g: Lists, t: Tid, s': State) returns (g': Lists)
    requires Inv(s, g) && t in s.pcs && s.pcs[t].PushCas? && PushStep(s, t, s')
    requires s.free == s.pcs[t].seen
    ensures Inv(s', g')
  {
    hide Placed, Private, Freed, Pinned;
    GuessAt(s, g, t);
    SlowAt(s, g, t);
    g' := Relabelled(g, Pushing, Main);
    PlacedRelabel(|s.next|, s.owned, g, Pushing, Main);
    ChainConcat(s.next, s.pcs[t].head, g.pushing, s.free, g.main, INVALID);
    assert Chained(s'.next, s'.free, g'.main, s'.alt, g'.alt);
    assert Shape(s'.pcs[t], s'.next, g'.moving, g'.pushing);
    hide Chained, Shape;
    PrivateSlow(s, g, t, s', g');
    FreedKept(s, g, t, s', g');
    PinnedKept(s, g, t, s', g');
  }

  // Reversing the chain taken from the alternative list, one entry a step.

  function Turned(g: Lists): (r: Lists)
    requires g.moving != [] && 0 <= g.moving[0] < |g.where|
    ensures |r.where| == |g.where|
  {
    g.(moving := g.moving[1..], pushing := [g.moving[0]] + g.pushing,
       where := g.where[g.moving[0] := Pushing])
  }

  lemma PlacedTurn(created: nat, owned: set<int>, g: Lists)
    requires Placed(created, owned, g) && g.moving != []
    ensures 0 <= g.moving[0] < created && g.where[g.moving[0]] == Moving
    ensures Placed(created, owned, Turned(g))
    ensures g.moving[0] !in g.moving[1..] && g.moving[0] !in g.pushing
    ensures g.moving[0] !in g.main && g.moving[0] !in g.alt
  {
    ListsPop(g.moving, g.where, Moving, Pushing);
    ListsPush(g.pushing, g.where, Pushing, g.moving[0]);
    ListsOther(g.main, g.where, Main, g.moving[0], Pushing);
    ListsOther(g.alt, g.where, Alt, g.moving[0], Pushing);
  }

  lemma ShapeTurn(pc: Pc, next: seq<int>, moving: seq<int>, pushing: seq<int>, pc': Pc)
    requires pc.Reverse? && Shape(pc, next, moving, pushing) && |next| <= MAX_HANDLES
    requires moving[0] !in moving[1..] && moving[0] !in pushing && 0 <= pc.index < |next|
    requires if next[pc.index] == INVALID then exists c :: pc' == PushRead(pc.index, pc.first, c)
             else pc' == Reverse(pc.first, next[pc.index], pc.index, pc.strict, pc.count + 1)
    ensures Shape(pc', next[pc.index := pc.last], moving[1..], [moving[0]] + pushing)
  {
    var next' := next[pc.index := pc.last];
    ChainWrite(next, next[pc.index], moving[1..], INVALID, pc.index, pc.last);
    ChainWrite(next, pc.last, pushing, INVALID, pc.index, pc.last);
    var pushing' := [moving[0]] + pushing;
    assert Chain(next', pc.index, pushing', INVALID);
    if next[pc.index] == INVALID {
      ChainFront(next', pc.index, pushing', INVALID);
    }
  }

  lemma ReverseKeeps(s: State, g: Lists, t: Tid, s': State) returns (g': Lists)
    requires Inv(s, g) && t in s.pcs && s.pcs[t].Reverse? && MoveStep(s, t, s')
    ensures Inv(s', g')
  {
    hide Placed, Chained, Private, Freed, Pinned;
    var pc := s.pcs[t];
    SlowAt(s, g, t);
    PlacedTurn(|s.next|, s.owned, g);
    g' := Turned(g);
    ChainedWrite(s, g, pc.index, pc.last);
    ShapeTurn(pc, s.next, g.moving, g.pushing, s'.pcs[t]);
    hide Shape;
    PrivateSlow(s, g, t, s', g');
    FreedKept(s, g, t, s', g');
    PinnedKept(s, g, t, s', g');
  }

  lemma ChainedWrite(s: State, g: Lists, h: int, v: int)
    requires Chained(s.next, s.free, g.main, s.alt, g.alt) && 0 <= h < |s.next|
    requires h !in g.main && h !in g.alt
    ensures Chained(s.next[h := v], s.free, g.main, s.alt, g.alt)
  {
    ChainWrite(s.next, s.free, g.main, INVALID, h, v);
    ChainWrite(s.next, s.alt, g.alt, INVALID, h, v);
  }

  lemma TailPlace(created: nat, owned: set<int>, g: Lists)
    requires Placed(created, owned, g) && g.pushing != []
    ensures var tail := g.pushing[|g.pushing| - 1];
      && 0 <= tail < created && g.where[tail] == Pushing
      && tail !in g.main && tail !in g.alt && tail !in g.pushing[..|g.pushing| - 1]
  {
  }

  lemma ShapeLinked(pc: Pc, next: seq<int>, moving: seq<int>, pushing: seq<int>)
    requires pc.PushLink? && Shape(pc, next, moving, pushing) && 0 <= pc.tail < |next|
    requires pc.tail !in pushing[..|pushing| - 1]
    ensures Shape(PushCas(pc.head, pc.tail, pc.seen, pc.cont), next[pc.tail := pc.seen], moving, pushing)
  {
    var next' := next[pc.tail := pc.seen];
    var front := pushing[..|pushing| - 1];
    ReadyWrite(pc.head, pc.tail, next, moving, pushing, pc.tail, pc.seen);
    assert Chain(next', pc.tail, [pc.tail], pc.seen);
    ChainConcat(next', pc.head, front, pc.tail, [pc.tail], pc.seen);
    assert front + [pc.tail] == pushing;
  }

  lemma LinkKeeps(s: State, g: Lists, t: Tid, s': State)
    requires Inv(s, g) && t in s.pcs && s.pcs[t].PushLink? && PushStep(s, t, s')
    ensures Inv(s', g)
  {
    hide Placed, Chained, Private, Freed, Pinned;
    var pc := s.pcs[t];
    GuessAt(s, g, t);
    SlowAt(s, g, t);
    TailPlace(|s.next|, s.owned, g);
    ChainedWrite(s, g, pc.tail, pc.seen);
    ShapeLinked(pc, s.next, g.moving, g.pushing);
    hide Shape;
    PrivateSlow(s, g, t, s', g);
    FreedKept(s, g, t, s', g);
    PinnedKept(s, g, t, s', g);
  }

  // A new level 0 table.

  function Grown(g: Lists): (r: Lists)
    ensures |r.where| == |g.where| + LEVEL_ENTRIES
    ensures forall h :: 0 <= h < |g.where| ==> r.where[h] == g.where[h]
    ensures forall h :: |g.where| <= h < |r.where| ==> r.where[h] == Pushing
  {
    g.(pushing := seq(LEVEL_ENTRIES, i => |g.where| + i),
       where := g.where + seq(LEVEL_ENTRIES, i => Pushing))
  }

  lemma PlacedGrow(created: nat, owned: set<int>, g: Lists)
    requires Placed(created, owned, g) && g.pushing == []
    ensures Placed(created + LEVEL_ENTRIES, owned, Grown(g))
  {
    var g' := Grown(g);
    forall h | 0 <= h < |g'.where| && g'.where[h] == Pushing
      ensures h in g'.pushing
    {
      assert h >= created;
      assert g'.pushing[h - created] == h;
    }
  }

  lemma {:induction false} LevelChain(next: seq<int>, base: nat, q: seq<int>, k: nat)
    requires |next| == base + LEVEL_ENTRIES && next[base..] == LevelLinks(base)
    requires k < LEVEL_ENTRIES && |q| == LEVEL_ENTRIES - 1 - k
    requires forall i :: 0 <= i < |q| ==> q[i] == base + k + i
    ensures Chain(next, base + k, q, base + LEVEL_ENTRIES - 1)
    decreases q
  {
    if q != [] {
      assert next[base + k] == next[base..][k];
      LevelChain(next, base, q[1..], k + 1);
    }
  }

  lemma GrowKeeps(s: State, g: Lists, t: Tid, s': State) returns (g': Lists)
    requires Inv(s, g) && t in s.pcs && s.pcs[t].Grow? && s.lock == t
    requires |s.next| + LEVEL_ENTRIES <= MAX_HANDLES
    requires s' == At(s, t, PushRead(|s.next|, |s.next| + LEVEL_ENTRIES - 1, Reread(true)))
                     .(next := s.next + LevelLinks(|s.next|))
    ensures Inv(s', g')
  {
    hide Placed, Chained, Private, Freed, Pinned;
    SlowAt(s, g, t);
    g' := Grown(g);
    PlacedGrow(|s.next|, s.owned, g);
    ChainedExtend(s, g, LevelLinks(|s.next|));
    LevelChain(s'.next, |s.next|, g'.pushing[..LEVEL_ENTRIES - 1], 0);
    assert Shape(s'.pcs[t], s'.next, g'.moving, g'.pushing);
    hide Shape;
    PrivateSlow(s, g, t, s', g');
    FreedKept(s, g, t, s', g');
    PinnedKept(s, g, t, s', g');
  }

  lemma ChainedExtend(s: State, g: Lists, more: seq<int>)
    requires Chained(s.next, s.free, g.main, s.alt, g.alt)
    ensures Chained(s.next + more, s.free, g.main, s.alt, g.alt)
  {
    ChainExtend(s.next, more, s.free, g.main, INVALID);
    ChainExtend(s.next, more, s.alt, g.alt, INVALID);
  }

  // ---------------------------------------------------------------------------------------------
  // Every step
  // ---------------------------------------------------------------------------------------------

  lemma ClientKeeps(s: State, g: Lists, t: Tid, s': State) returns (g': Lists)
    requires Inv(s, g) && t in s.pcs && ClientStep(s, t, s')
    ensures Inv(s', g')
  {
    hide Inv;
    g' := g;
    if s.pcs[t].Idle? && s' == At(s, t, ReadHead) {
      Outside(s, g, t, ReadHead);
    } else if s.pcs[t].Idle? && exists h :: h in s.owned && GivesBack(s, t, h, s') {
      var h :| h in s.owned && GivesBack(s, t, h, s');
      g' := GiveBackKeeps(s, g, t, h, s');
    } else {
      var h, v :| h in s.owned && UsesEntry(s, h, v, s');
      UseEntryKeeps(s, g, t, h, v, s');
    }
  }

  lemma RecheckKeeps(s: State, g: Lists, t: Tid, s': State)
    requires Inv(s, g) && t in s.pcs && PopStep(s, t, s')
    requires s.pcs[t].ReadHead? || s.pcs[t].LockStripe? || s.pcs[t].Recheck?
    ensures Inv(s', g)
  {
    GuessAt(s, g, t);
    hide Inv;
    match s.pcs[t] {
      case ReadHead => Outside(s, g, t, s'.pcs[t]);
      case LockStripe(fv) => Outside(s, g, t, Recheck(fv));
      case Recheck(fv) =>
        if s.free == fv { PassRecheck(s, g, t, fv); } else { Outside(s, g, t, UnlockStripe(fv, false)); }
    }
  }

  lemma PopKeeps(s: State, g: Lists, t: Tid, s': State) returns (g': Lists)
    requires Inv(s, g) && t in s.pcs && PopStep(s, t, s')
    ensures Inv(s', g')
  {
    hide Inv;
    g' := g;
    if s.pcs[t].ReadHead? || s.pcs[t].LockStripe? || s.pcs[t].Recheck? {
      RecheckKeeps(s, g, t, s');
    } else {
      match s.pcs[t] {
        case ReadNext(fv) => LoadNext(s, g, t, fv);
        case CasHead(fv, nx) =>
          if s.free == fv { g' := PopHead(s, g, t, fv, nx, s'); }
          else { Outside(s, g, t, UnlockStripe(fv, false)); }
        case UnlockStripe(_, won) => Outside(s, g, t, s'.pcs[t]);
      }
    }
  }

  lemma TakeOrTest(s: State, g: Lists, t: Tid, s': State) returns (g': Lists)
    requires Inv(s, g) && t in s.pcs && MoveStep(s, t, s')
    requires s.pcs[t].TakeAlt? || s.pcs[t].TestLocks? || s.pcs[t].ReadFlags?
    ensures Inv(s', g')
  {
    g' := g;
    hide Placed, Chained, Private, Freed, Pinned;
    SlowAt(s, g, t);
    hide Inv;
    match s.pcs[t] {
      case TakeAlt =>
        if s.alt == INVALID { SlowMove(s, g, t, Grow); } else { g' := TakeKeeps(s, g, t, s'); }
      case TestLocks(first, i) =>
        SlowMove(s, g, t, if i < LOCKS then TestLocks(first, i + 1) else ReadFlags(first));
      case ReadFlags(_) => SlowMove(s, g, t, s'.pcs[t]);
    }
  }

  lemma MoveKeeps(s: State, g: Lists, t: Tid, s': State) returns (g': Lists)
    requires Inv(s, g) && t in s.pcs && MoveStep(s, t, s')
    ensures Inv(s', g')
  {
    g' := g;
    if s.pcs[t].TakeAlt? || s.pcs[t].TestLocks? || s.pcs[t].ReadFlags? {
      hide Inv;
      g' := TakeOrTest(s, g, t, s');
    } else {
      hide Placed, Chained, Private, Freed, Pinned;
      if InSlow(s.pcs[t]) { SlowAt(s, g, t); }
      hide Inv;
      match s.pcs[t] {
        case EnterSlow => EnterKeeps(s, g, t, s');
        case SlowHead => SlowMove(s, g, t, s'.pcs[t]);
        case Shortcut(first) =>
          if s.free == INVALID { g' := ShortcutKeeps(s, g, t, s'); }
          else { SlowMove(s, g, t, s'.pcs[t]); }
        case Reverse(_, _, _, _, _) => g' := ReverseKeeps(s, g, t, s');
      }
    }
  }

  lemma PushKeeps(s: State, g: Lists, t: Tid, s': State) returns (g': Lists)
    requires Inv(s, g) && t in s.pcs && PushStep(s, t, s')
    ensures Inv(s', g')
  {
    g' := g;
    GuessAt(s, g, t);
    hide Placed, Chained, Private, Freed, Pinned;
    SlowAt(s, g, t);
    hide Inv;
    match s.pcs[t] {
      case PushRead(_, _, _) => SlowMove(s, g, t, s'.pcs[t]);
      case PushLink(_, _, _, _) => LinkKeeps(s, g, t, s');
      case PushCas(_, _, seen, _) =>
        if s.free == seen { g' := PushedKeeps(s, g, t, s'); } else { SlowMove(s, g, t, s'.pcs[t]); }
    }
  }

  lemma GrowStepKeeps(s: State, g: Lists, t: Tid, s': State) returns (g': Lists)
    requires Inv(s, g) && t in s.pcs && GrowStep(s, t, s')
    ensures Inv(s', g')
  {
    g' := g;
    GuessAt(s, g, t);
    hide Placed, Chained, Private, Freed, Pinned;
    if InSlow(s.pcs[t]) { SlowAt(s, g, t); }
    hide Inv;
    match s.pcs[t] {
      case Grow =>
        if s'.pcs[t].LeaveSlow? { SlowMove(s, g, t, s'.pcs[t]); }
        else { g' := GrowKeeps(s, g, t, s'); }
      case LeaveSlow(_) => LeaveKeeps(s, g, t, s');
      case RereadHead(_) => Outside(s, g, t, s'.pcs[t]);
    }
  }

  lemma StepKeeps(s: State, g: Lists, t: Tid, s': State) returns (g': Lists)
    requires Inv(s, g) && Step(s, t, s')
    ensures Inv(s', g')
  {
    hide Inv, ClientStep, PopStep, MoveStep, PushStep, GrowStep, FreeStep;
    if ClientStep(s, t, s') { g' := ClientKeeps(s, g, t, s'); }
    else if PopStep(s, t, s') { g' := PopKeeps(s, g, t, s'); }
    else if MoveStep(s, t, s') { g' := MoveKeeps(s, g, t, s'); }
    else if PushStep(s, t, s') { g' := PushKeeps(s, g, t, s'); }
    else if GrowStep(s, t, s') { g' := GrowStepKeeps(s, g, t, s'); }
    else { g' := FreeKeeps(s, g, t, s'); }
  }
}

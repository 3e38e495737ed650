/** Incremental solving: assertion frames, and what a check answers. */
module Incremental {
  import opened Terms
  import opened TermMapping
  import opened LogicStore
  import opened CnfShapes
  import opened Cnf
  import opened BoolRewriting

  datatype SStat = STrue | SFalse | SUndef | SError

  datatype PushFrame = PushFrame(id: nat, formulas: seq<PTRef>, root: OptRef)

  /** Formulas of the user do not mention the variables that stand for frames. */
  ghost predicate UserFormula(T: seq<Pterm>, f: PTRef)
    requires WfTerms(T)
  {
    f < |T| && HasSortBool(T, f) && forall x: PTRef | x < |T| && Below(T, f, x) :: !T[x].symb.FrameVar?
  }

  ghost predicate UserFormulas(T: seq<Pterm>, fs: seq<PTRef>)
    requires WfTerms(T)
  {
    forall i | 0 <= i < |fs| :: UserFormula(T, fs[i])
  }

  lemma UserFormulasPrefix(T: seq<Pterm>, T': seq<Pterm>, fs: seq<PTRef>)
    requires WfTerms(T) && WfTerms(T') && T <= T' && UserFormulas(T, fs)
    ensures UserFormulas(T', fs) && InStore(T, fs) && InStore(T', fs)
    ensures forall val: Valuation :: AllTrue(T', val, fs) == AllTrue(T, val, fs)
  {
    forall i | 0 <= i < |fs| ensures UserFormula(T', fs[i]) {
      assert UserFormula(T, fs[i]);
      forall x: PTRef | x < |T'| && Below(T', fs[i], x) ensures !T'[x].symb.FrameVar? {
        BelowIsOlder(T', fs[i], x);
        BelowPrefix(T, T', fs[i], x);
      }
    }
    forall val: Valuation ensures AllTrue(T', val, fs) == AllTrue(T, val, fs) {
      PropEvalPrefixSeq(T, T', val, fs);
    }
  }

  /** A stack of assertion frames holds when all formulas of all frames do. */
  ghost predicate StackHolds(T: seq<Pterm>, val: Valuation, stack: seq<seq<PTRef>>)
    requires WfTerms(T) && StackOk(T, stack)
  {
    forall i | 0 <= i < |stack| :: AllTrue(T, val, stack[i])
  }

  ghost predicate StackOk(T: seq<Pterm>, stack: seq<seq<PTRef>>)
    requires WfTerms(T)
  {
    forall i | 0 <= i < |stack| :: UserFormulas(T, stack[i]) && InStore(T, stack[i])
  }

  ghost predicate StackSatisfiable(T: seq<Pterm>, stack: seq<seq<PTRef>>)
    requires WfTerms(T) && StackOk(T, stack)
  {
    exists val: Valuation :: StackHolds(T, val, stack)
  }

  /** The valuation that agrees with val except that exactly the frames on the stack are enabled. */
  ghost function Enable(T: seq<Pterm>, val: Valuation, frames: seq<nat>): Valuation {
    iset r: PTRef | if r < |T| && T[r].symb.FrameVar? then T[r].symb.id !in frames else r in val
  }

  lemma EnableKeepsFormulas(T: seq<Pterm>, val: Valuation, frames: seq<nat>, fs: seq<PTRef>)
    requires WfTerms(T) && UserFormulas(T, fs) && InStore(T, fs)
    ensures AllTrue(T, Enable(T, val, frames), fs) == AllTrue(T, val, fs)
  {
    forall f | f in fs ensures PropEval(T, Enable(T, val, frames), f) == PropEval(T, val, f) {
      assert UserFormula(T, f);
      PropEvalAgree(T, Enable(T, val, frames), val, f);
    }
  }

  // ----- what the clause database says, as a list of formulas given to frames -----

  datatype Given = Given(id: nat, f: PTRef)

  ghost predicate GivenTrue(T: seq<Pterm>, tau: Valuation, frameTerms: seq<PTRef>, g: Given)
    requires WfTerms(T) && GivenOk(T, frameTerms, g)
  {
    Guard(tau, frameTerms[g.id]) || PropEval(T, tau, g.f)
  }

  ghost predicate GivenOk(T: seq<Pterm>, frameTerms: seq<PTRef>, g: Given) {
    g.id < |frameTerms| && (frameTerms[g.id] == TERM_TRUE <==> g.id == 0) && g.f < |T| && HasSortBool(T, g.f)
  }

  ghost predicate GivensOk(T: seq<Pterm>, frameTerms: seq<PTRef>, gs: seq<Given>) {
    forall k | 0 <= k < |gs| :: GivenOk(T, frameTerms, gs[k])
  }

  ghost predicate GivensTrue(T: seq<Pterm>, tau: Valuation, frameTerms: seq<PTRef>, gs: seq<Given>)
    requires WfTerms(T) && GivensOk(T, frameTerms, gs)
  {
    forall k | 0 <= k < |gs| :: GivenTrue(T, tau, frameTerms, gs[k])
  }

  lemma GivensPrefix(T: seq<Pterm>, T': seq<Pterm>, fts: seq<PTRef>, fts': seq<PTRef>, id: nat, gs: seq<Given>)
    requires WfTerms(T) && WfTerms(T') && T <= T' && FramesKept(fts, fts', id) && GivensOk(T, fts, gs)
    ensures GivensOk(T', fts', gs)
    ensures forall tau: Valuation :: GivensTrue(T', tau, fts', gs) == GivensTrue(T, tau, fts, gs)
  {
    forall k | 0 <= k < |gs| ensures GivenOk(T', fts', gs[k]) && fts'[gs[k].id] == fts[gs[k].id] {
      assert GivenOk(T, fts, gs[k]);
    }
    forall tau: Valuation, k | 0 <= k < |gs| ensures GivenTrue(T', tau, fts', gs[k]) == GivenTrue(T, tau, fts, gs[k]) {
      PropEvalPrefix(T, T', tau, gs[k].f);
    }
  }

  /** The clause database means: the constants are right, and every formula given holds in its
      frame.  The second half is what makes the definitions of popped frames harmless. */
  ghost predicate DbMeans(T: seq<Pterm>, vt: seq<PTRef>, D: seq<Clause>, fts: seq<PTRef>, gs: seq<Given>)
    requires WfTerms(T) && ClausesOk(vt, D) && GivensOk(T, fts, gs)
  {
    && (forall tau: Valuation | Models(vt, tau, D) :: ConstantsOk(tau) && GivensTrue(T, tau, fts, gs))
    && (forall tau: Valuation | ConstantsOk(tau) && AllConsistent(T, tau) && GivensTrue(T, tau, fts, gs) :: Models(vt, tau, D))
  }

  lemma DbMeansGive(T: seq<Pterm>, vt: seq<PTRef>, D: seq<Clause>, fts: seq<PTRef>, gs: seq<Given>,
                    T': seq<Pterm>, vt': seq<PTRef>, D': seq<Clause>, fts': seq<PTRef>, g: Given)
    requires WfTerms(T) && ClausesOk(vt, D) && GivensOk(T, fts, gs) && DbMeans(T, vt, D, fts, gs)
    requires WfTerms(T') && T <= T' && ClausesOk(vt', D') && FramesKept(fts, fts', g.id) && GivenOk(T', fts', g)
    requires forall tau: Valuation | Models(vt', tau, D') :: Models(vt, tau, D)
    requires forall tau: Valuation | ConstantsOk(tau) && Models(vt', tau, D') :: GivenTrue(T', tau, fts', g)
    requires forall tau: Valuation | ConstantsOk(tau) && AllConsistent(T', tau) && Models(vt, tau, D)
                                     && GivenTrue(T', tau, fts', g) :: Models(vt', tau, D')
    ensures GivensOk(T', fts', gs + [g]) && DbMeans(T', vt', D', fts', gs + [g])
  {
    hide Models, WfTerms, FramesKept, GivenTrue, GivenOk, ConstantsOk;
    GivensPrefix(T, T', fts, fts', g.id, gs);
    forall tau: Valuation
      ensures GivensTrue(T', tau, fts', gs + [g]) == (GivensTrue(T, tau, fts, gs) && GivenTrue(T', tau, fts', g))
    {
      assert (gs + [g])[|gs|] == g && forall k | 0 <= k < |gs| :: (gs + [g])[k] == gs[k];
    }
    forall tau: Valuation | ConstantsOk(tau) && AllConsistent(T', tau) && GivensTrue(T', tau, fts', gs + [g])
      ensures Models(vt', tau, D')
    {
      AllConsistentPrefix(T, T', tau);
    }
  }

  lemma GivenIsOk(T: seq<Pterm>, fts: seq<PTRef>, fts': seq<PTRef>, g: Given)
    requires FramesKept(fts, fts', g.id) && g.f < |T| && HasSortBool(T, g.f)
    ensures |fts| <= |fts'| && g.id < |fts'| && GivenOk(T, fts', g)
  {
  }

  lemma DbMeansGrow(T: seq<Pterm>, T': seq<Pterm>, vt: seq<PTRef>, D: seq<Clause>, fts: seq<PTRef>, gs: seq<Given>)
    requires WfTerms(T) && WfTerms(T') && T <= T' && ClausesOk(vt, D) && GivensOk(T, fts, gs) && DbMeans(T, vt, D, fts, gs)
    ensures GivensOk(T', fts, gs) && DbMeans(T', vt, D, fts, gs)
  {
    hide Models, WfTerms, GivenTrue, GivenOk, ConstantsOk;
    forall k | 0 <= k < |gs| ensures GivenOk(T', fts, gs[k]) {
      GivenGrow(T, T', iset{}, fts, gs[k]);
    }
    forall tau: Valuation, k | 0 <= k < |gs|
      ensures GivenTrue(T', tau, fts, gs[k]) == GivenTrue(T, tau, fts, gs[k])
    {
      GivenGrow(T, T', tau, fts, gs[k]);
    }
    forall tau: Valuation | ConstantsOk(tau) && AllConsistent(T', tau) && GivensTrue(T', tau, fts, gs)
      ensures Models(vt, tau, D)
    {
      AllConsistentPrefix(T, T', tau);
      assert forall k | 0 <= k < |gs| :: GivenTrue(T', tau, fts, gs[k]);
    }
  }

  lemma GivenGrow(T: seq<Pterm>, T': seq<Pterm>, tau: Valuation, fts: seq<PTRef>, g: Given)
    requires WfTerms(T) && WfTerms(T') && T <= T' && GivenOk(T, fts, g)
    ensures GivenOk(T', fts, g) && GivenTrue(T', tau, fts, g) == GivenTrue(T, tau, fts, g)
  {
    PropEvalPrefix(T, T', tau, g.f);
  }

  // ----- the stack of frames -----

  predicate FramesOk(store: seq<PushFrame>, frames: seq<nat>) {
    && frames != [] && frames[0] == 0
    && (forall i, j | 0 <= i < j < |frames| :: frames[i] < frames[j])
    && (forall i | 0 <= i < |frames| :: frames[i] < |store|)
    && (forall r | 0 <= r < |store| :: store[r].id == r)
  }

  function StackOf(store: seq<PushFrame>, frames: seq<nat>): (s: seq<seq<PTRef>>)
    requires forall i | 0 <= i < |frames| :: frames[i] < |store|
    ensures |s| == |frames| && forall i | 0 <= i < |s| :: s[i] == store[frames[i]].formulas
  {
    seq(|frames|, i requires 0 <= i < |frames| => store[frames[i]].formulas)
  }

  /** A formula given to a frame still on the stack follows from the formulas of that frame. */
  ghost predicate GivenFollows(T: seq<Pterm>, store: seq<PushFrame>, frames: seq<nat>, g: Given)
    requires WfTerms(T)
  {
    && g.id < |store| && g.f < |T|
    && (g.id in frames ==>
          InStore(T, store[g.id].formulas)
          && forall val: Valuation | AllTrue(T, val, store[g.id].formulas) :: PropEval(T, val, g.f))
  }

  /** Some formula given to the frame is as strong as all formulas of the frame. */
  ghost predicate FrameCovered(T: seq<Pterm>, fts: seq<PTRef>, gs: seq<Given>, p: PushFrame)
    requires WfTerms(T)
  {
    && p.id < |fts| && InStore(T, p.formulas)
    && exists k | 0 <= k < |gs| ::
         gs[k].id == p.id && gs[k].f < |T| && forall val: Valuation | PropEval(T, val, gs[k].f) :: AllTrue(T, val, p.formulas)
  }

  lemma FollowsPrefix(T: seq<Pterm>, T': seq<Pterm>, store: seq<PushFrame>, frames: seq<nat>, g: Given)
    requires WfTerms(T) && WfTerms(T') && T <= T' && GivenFollows(T, store, frames, g)
    ensures GivenFollows(T', store, frames, g)
  {
    if g.id in frames {
      forall val: Valuation | AllTrue(T', val, store[g.id].formulas) ensures PropEval(T', val, g.f) {
        PropEvalPrefixSeq(T, T', val, store[g.id].formulas);
        PropEvalPrefix(T, T', val, g.f);
      }
    }
  }

  lemma CoveredPrefix(T: seq<Pterm>, T': seq<Pterm>, fts: seq<PTRef>, fts': seq<PTRef>, gs: seq<Given>, gs': seq<Given>, p: PushFrame)
    requires WfTerms(T) && WfTerms(T') && T <= T' && |fts| <= |fts'| && gs <= gs' && FrameCovered(T, fts, gs, p)
    ensures FrameCovered(T', fts', gs', p)
  {
    var k :| 0 <= k < |gs| && gs[k].id == p.id && gs[k].f < |T|
             && forall val: Valuation | PropEval(T, val, gs[k].f) :: AllTrue(T, val, p.formulas);
    assert gs'[k] == gs[k];
    forall val: Valuation | PropEval(T', val, gs[k].f) ensures AllTrue(T', val, p.formulas) {
      PropEvalPrefixSeq(T, T', val, p.formulas);
      PropEvalPrefix(T, T', val, gs[k].f);
    }
  }

  /** The books: the formulas on the stack are those of a user, every given formula follows from its
      frame, and the simplified frames are covered by given formulas. */
  ghost predicate Booked(T: seq<Pterm>, fts: seq<PTRef>, gs: seq<Given>, store: seq<PushFrame>, frames: seq<nat>, simplified: nat)
    requires WfTerms(T)
  {
    && FramesOk(store, frames) && simplified <= |frames| && StackOk(T, StackOf(store, frames))
    && (forall k | 0 <= k < |gs| :: GivenFollows(T, store, frames, gs[k]))
    && (forall i | 0 <= i < simplified :: FrameCovered(T, fts, gs, store[frames[i]]))
  }

  /** A satisfiable stack yields a model of the whole database under the assumptions of a check. */
  lemma StackGivesModel(T: seq<Pterm>, vt: seq<PTRef>, D: seq<Clause>, fts: seq<PTRef>, gs: seq<Given>,
                        store: seq<PushFrame>, frames: seq<nat>, val: Valuation) returns (tau: Valuation)
    requires WfTerms(T) && ClausesOk(vt, D) && GivensOk(T, fts, gs) && DbMeans(T, vt, D, fts, gs)
    requires FramesOk(store, frames) && StackOk(T, StackOf(store, frames)) && StackHolds(T, val, StackOf(store, frames))
    requires forall k | 0 <= k < |gs| :: GivenFollows(T, store, frames, gs[k])
    requires forall i | 0 <= i < |fts| :: IsFrameTerm(T, fts[i], i)
    ensures Models(vt, tau, D) && FramesAssumed(tau, fts, frames)
  {
    hide Models, WfTerms, StackOf;
    var val' := Enable(T, val, frames);
    tau := Extension(T, val');
    ExtensionIsConsistent(T, val');
    forall i | 0 <= i < |fts| && fts[i] != TERM_TRUE ensures fts[i] in tau <==> i !in frames {
      assert IsFrameTerm(T, fts[i], i);
      assert PropEval(T, val', fts[i]) == (fts[i] in val');
    }
    forall k | 0 <= k < |gs| ensures GivenTrue(T, tau, fts, gs[k]) {
      var g := gs[k];
      assert GivenOk(T, fts, g) && GivenFollows(T, store, frames, g);
      if g.id in frames {
        var i :| 0 <= i < |frames| && frames[i] == g.id;
        assert StackOf(store, frames)[i] == store[g.id].formulas;
        assert UserFormulas(T, StackOf(store, frames)[i]) && AllTrue(T, val, StackOf(store, frames)[i]);
        EnableKeepsFormulas(T, val, frames, store[g.id].formulas);
      } else {
        assert frames[0] == 0;
        assert fts[g.id] in tau;
      }
    }
  }

  /** A model of the database under the assumptions of a check satisfies every covered frame. */
  lemma ModelSatisfiesStack(T: seq<Pterm>, vt: seq<PTRef>, D: seq<Clause>, fts: seq<PTRef>, gs: seq<Given>,
                            store: seq<PushFrame>, frames: seq<nat>, tau: Valuation)
    requires WfTerms(T) && ClausesOk(vt, D) && GivensOk(T, fts, gs) && DbMeans(T, vt, D, fts, gs)
    requires FramesOk(store, frames) && StackOk(T, StackOf(store, frames))
    requires forall i | 0 <= i < |frames| :: FrameCovered(T, fts, gs, store[frames[i]])
    requires Models(vt, tau, D) && FramesAssumed(tau, fts, frames)
    ensures StackHolds(T, tau, StackOf(store, frames))
  {
    hide Models, WfTerms;
    forall i | 0 <= i < |frames| ensures AllTrue(T, tau, StackOf(store, frames)[i]) {
      var p := store[frames[i]];
      assert FrameCovered(T, fts, gs, p) && p.id == frames[i];
      var k :| 0 <= k < |gs| && gs[k].id == p.id && gs[k].f < |T|
               && forall val: Valuation | PropEval(T, val, gs[k].f) :: AllTrue(T, val, p.formulas);
      assert GivenOk(T, fts, gs[k]) && GivenTrue(T, tau, fts, gs[k]);
    }
  }

  /** The conjunction of a frame's formulas, flattened; substitutions are switched off.  The
      nodes that flattening leaves alone because they are shared are an arbitrary set. */
  method SimplifiedRoot(logic: Logic, formulas: seq<PTRef>) returns (root: PTRef)
    requires logic.Valid() && AllBool(logic.terms, formulas)
    modifies logic
    ensures logic.Valid() && old(logic.terms) <= logic.terms
    ensures root < |logic.terms| && HasSortBool(logic.terms, root)
    ensures forall val: Valuation :: PropEval(logic.terms, val, root) == AllTrue(old(logic.terms), val, formulas)
  {
    hide WfTerms, Equivalent, AllTrue, PropEval, OnlyVarsOf, IteFree, Plain, ProperTerm, InStore, AndResult, Flattens;
    ghost var T0 := logic.terms;
    root := logic.MkAnd(formulas);
    if root == TERM_FALSE {
      return;
    }
    ghost var T1, r1 := logic.terms, root;
    SelfEquivalent(T1, r1);
    if IsBooleanOperator(logic.terms[root].symb) {
      var shared: set<PTRef> := *;
      root := RewriteMaxArity(logic, root, shared);
    }
    ghost var T2, r2 := logic.terms, root;
    InEquivalence(T2, r2, r1);
    TrueIsTrue(T2);
    root := logic.MkAnd([root, TERM_TRUE]);
    RootKeepsMeaning(T1, r1, T2, r2);
  }

  /** Conjoining "true" to a root that is equivalent to an older one. */
  lemma RootKeepsMeaning(T1: seq<Pterm>, r1: PTRef, T2: seq<Pterm>, r2: PTRef)
    requires WfTerms(T1) && WfTerms(T2) && T1 <= T2 && r1 < |T1| && r2 < |T2|
    requires forall val: Valuation :: PropEval(T2, val, r2) == PropEval(T2, val, r1)
    ensures InStore(T2, [r2, TERM_TRUE])
    ensures forall val: Valuation :: AllTrue(T2, val, [r2, TERM_TRUE]) == PropEval(T1, val, r1)
  {
    TrueIsTrue(T2);
    hide PropEval;
    forall val: Valuation ensures AllTrue(T2, val, [r2, TERM_TRUE]) == PropEval(T1, val, r1) {
      PropEvalPrefix(T1, T2, val, r1);
      assert r2 in [r2, TERM_TRUE];
    }
  }

  lemma InEquivalence(T: seq<Pterm>, r: PTRef, s: PTRef)
    requires WfTerms(T) && Equivalent(T, r, s)
    ensures r < |T| && s < |T| && HasSortBool(T, r)
    ensures forall val: Valuation :: PropEval(T, val, r) == PropEval(T, val, s)
  {
  }

  lemma TrueIsTrue(T: seq<Pterm>)
    requires WfTerms(T)
    ensures TERM_TRUE < |T| && HasSortBool(T, TERM_TRUE)
    ensures forall val: Valuation :: PropEval(T, val, TERM_TRUE)
  {
  }

  class MainSolver {
    const cnf: Cnfizer
    var store: seq<PushFrame>            // every frame ever allocated
    var idCounter: nat
    var frames: seq<nat>                 // the frames on the stack
    var simplifiedUntil: nat             // frames below this position are in the clause database
    var status: SStat
    ghost var given: seq<Given>

    ghost predicate Valid()
      reads this, cnf, cnf.logic, cnf.tmap, cnf.solver
    {
      cnf.logic.Valid() && ValidOver(cnf.logic.terms)
    }

    ghost predicate ValidOver(T: seq<Pterm>)
      requires WfTerms(T)
      reads this, cnf, cnf.tmap, cnf.solver
    {
      && cnf.ValidOver(T)
      && FramesOk(store, frames) && idCounter == |store| && simplifiedUntil <= |frames|
      && GivensOk(T, cnf.frameTerms, given)
      && DbMeans(T, cnf.tmap.varToTerm, cnf.solver.clauses, cnf.frameTerms, given)
      && Booked(T, cnf.frameTerms, given, store, frames, simplifiedUntil)
    }

    lemma ValidOverMore(T: seq<Pterm>, T': seq<Pterm>)
      requires WfTerms(T) && WfTerms(T') && T <= T' && ValidOver(T)
      ensures ValidOver(T')
    {
      hide DbMeans, WfTerms, ProperTerm, Booked, IsFrameTerm, GivenOk;
      cnf.ValidOverMore(T, T');
      DbMeansGrow(T, T', cnf.tmap.varToTerm, cnf.solver.clauses, cnf.frameTerms, given);
      BooksGrow(T, T', cnf.frameTerms, given, store, frames, simplifiedUntil);
    }

    ghost function Stack(): seq<seq<PTRef>>
      requires Valid()
      reads this, cnf, cnf.logic, cnf.tmap, cnf.solver
    {
      StackOf(store, frames)
    }

    /** The solver starts with one frame holding "true"; the constants are given their meaning
        before any frame variable exists. */
    constructor (c: Cnfizer)
      requires c.Valid() && c.solver.clauses == [] && c.frameTerm == TERM_TRUE
      modifies c.tmap, c.solver
      ensures Valid() && cnf == c && Stack() == [[TERM_TRUE]] && c.logic.terms == old(c.logic.terms)
    {
      cnf := c;
      store, idCounter := [PushFrame(0, [TERM_TRUE], NoRef)], 1;
      frames, simplifiedUntil, status := [0], 0, SUndef;
      given := [];
      new;
      cnf.Initialize();
      assert WfTerm(cnf.logic.terms, TERM_TRUE);
      assert cnf.logic.terms[0].args == [];
      assert forall x :: Below(cnf.logic.terms, TERM_TRUE, x) ==> x == TERM_TRUE;
      assert UserFormula(cnf.logic.terms, TERM_TRUE);
      assert forall tau: Valuation :: cnf.DbModels(tau) == ConstantsOk(tau);
    }

    method Push()
      requires Valid()
      modifies this
      ensures Valid() && Stack() == old(Stack()) + [[]]
      ensures frames == old(frames) + [|old(store)|] && forall i | 0 <= i < |old(frames)| :: old(frames)[i] < |old(store)|
      ensures |store| == |old(store)| + 1 && store[..|old(store)|] == old(store)
    {
      hide DbMeans, WfTerms, ProperTerm, Booked, GivensOk, Cnfizer.ValidOver, StackOf;
      PushBooked(cnf.logic.terms, cnf.frameTerms, given, store, frames, simplifiedUntil);
      store := store + [PushFrame(idCounter, [], NoRef)];
      frames := frames + [idCounter];
      idCounter := idCounter + 1;
    }

    /** The bottom frame is never popped. */
    method Pop() returns (popped: bool)
      requires Valid()
      modifies this
      ensures Valid() && popped == (|old(Stack())| > 1)
      ensures Stack() == if popped then old(Stack())[..|old(Stack())| - 1] else old(Stack())
    {
      hide DbMeans, WfTerms, ProperTerm, Booked, GivensOk, Cnfizer.ValidOver, StackOf;
      if |frames| <= 1 {
        return false;
      }
      PopBooked(cnf.logic.terms, cnf.frameTerms, given, store, frames, simplifiedUntil);
      frames := frames[..|frames| - 1];
      if simplifiedUntil > |frames| {
        simplifiedUntil := |frames|;
      }
      popped := true;
    }

    lemma StackIsOk()
      requires Valid()
      ensures Stack() != [] && StackOk(cnf.logic.terms, Stack())
    {
      hide DbMeans, GivensOk, WfTerms, ProperTerm, Cnfizer.ValidOver;
    }

    /** Adds a formula to the top frame; a term that is not Boolean is refused. */
    method InsertFormula(root: PTRef) returns (res: SStat)
      requires Valid() && root < |cnf.logic.terms|
      requires HasSortBool(cnf.logic.terms, root) ==> UserFormula(cnf.logic.terms, root)
      modifies this
      ensures Valid()
      ensures if HasSortBool(cnf.logic.terms, root)
              then res == SUndef
                   && Stack() == old(Stack()[|Stack()| - 1 := Stack()[|Stack()| - 1] + [root]])
              else res == SError && Stack() == old(Stack())
    {
      hide DbMeans, WfTerms, ProperTerm, UserFormula, Booked, GivensOk, Cnfizer.ValidOver, StackOf;
      if !HasSortBool(cnf.logic.terms, root) {
        return SError;
      }
      InsertBooked(cnf.logic.terms, cnf.frameTerms, given, store, frames, simplifiedUntil, root);
      var last := frames[|frames| - 1];
      store := store[last := PushFrame(last, store[last].formulas + [root], NoRef)];
      simplifiedUntil := if simplifiedUntil < |frames| - 1 then simplifiedUntil else |frames| - 1;
      res := SUndef;
    }

    method PushFormula(root: PTRef) returns (res: SStat)
      requires Valid() && root < |cnf.logic.terms|
      requires HasSortBool(cnf.logic.terms, root) ==> UserFormula(cnf.logic.terms, root)
      modifies this
      ensures Valid()
      ensures Stack() == old(Stack()) + [if HasSortBool(cnf.logic.terms, root) then [root] else []]
    {
      hide DbMeans, WfTerms, ProperTerm, UserFormula, Booked, GivensOk, Cnfizer.ValidOver, MainSolver.ValidOver;
      Push();
      ghost var s := Stack();
      res := InsertFormula(root);
      assert s[|s| - 1] + [root] == [root];
    }

    /** Gives the formulas of the first unsimplified frame to the clause database. */
    method SimplifyFrame() returns (res: SStat)
      requires Valid() && simplifiedUntil < |frames|
      modifies this, cnf, cnf.logic, cnf.tmap, cnf.solver
      ensures Valid() && old(cnf.logic.terms) <= cnf.logic.terms && frames == old(frames)
      ensures simplifiedUntil == old(simplifiedUntil) + 1 && Stack() == old(Stack())
      ensures res == SUndef || res == SFalse
      ensures res == SFalse ==> !StackSatisfiable(cnf.logic.terms, Stack())
    {
      hide DbMeans, Models, WfTerms, ProperTerm, Booked, GivensOk, Cnfizer.ValidOver;
      ghost var T0 := cnf.logic.terms;
      assert AllBool(T0, store[frames[simplifiedUntil]].formulas) by {
        BookedStack(T0, cnf.frameTerms, given, store, frames, simplifiedUntil);
        FormulasOfFrame(T0, store, frames, simplifiedUntil);
      }
      var formulas := store[frames[simplifiedUntil]].formulas;
      var root := SimplifiedRoot(cnf.logic, formulas);
      ValidOverMore(T0, cnf.logic.terms);
      RootStillMeans(T0, cnf.logic.terms, cnf.logic.terms, root, formulas);
      res := GiveRoot(root);
    }

    method GiveRoot(root: PTRef) returns (res: SStat)
      requires Valid() && simplifiedUntil < |frames| && root < |cnf.logic.terms| && HasSortBool(cnf.logic.terms, root)
      requires var fs := store[frames[simplifiedUntil]].formulas;
        InStore(cnf.logic.terms, fs)
        && forall val: Valuation :: PropEval(cnf.logic.terms, val, root) == AllTrue(cnf.logic.terms, val, fs)
      modifies this, cnf, cnf.logic, cnf.tmap, cnf.solver
      ensures Valid() && old(cnf.logic.terms) <= cnf.logic.terms && frames == old(frames)
      ensures simplifiedUntil == old(simplifiedUntil) + 1 && Stack() == old(Stack())
      ensures res == SUndef || res == SFalse
      ensures res == SFalse ==> !StackSatisfiable(cnf.logic.terms, Stack())
    {
      hide DbMeans, Models, WfTerms, ProperTerm, ConstantsOk, AllConsistent, Booked, GivensOk, FramesKept, StackOf, PropEval, AllTrue,
           StackSatisfiable, TermMapper.Valid, SimpSMTSolver.Valid, Guard, GivenOk;
      ghost var T0, vt0, D0, fts0, gs0 := cnf.logic.terms, cnf.tmap.varToTerm, cnf.solver.clauses, cnf.frameTerms, given;
      ghost var store0 := store;
      var i := simplifiedUntil;
      var id := frames[i];
      store := store[id := store[id].(root := SomeRef(root))];
      simplifiedUntil := i + 1;
      var ok := cnf.CnfizeAndGiveToSolver(root, id);
      assert forall tau: Valuation :: old(cnf.DbModels(tau)) == Models(vt0, tau, D0);
      assert forall tau: Valuation :: cnf.DbModels(tau) == Models(cnf.tmap.varToTerm, tau, cnf.solver.clauses);
      ghost var T1, g := cnf.logic.terms, Given(id, root);
      given := given + [g];
      RootStillMeans(T0, T0, T1, root, store[id].formulas);
      GivenIsOk(T1, fts0, cnf.frameTerms, g);
      DbMeansGive(T0, vt0, D0, fts0, gs0, T1, cnf.tmap.varToTerm, cnf.solver.clauses, cnf.frameTerms, g);
      GiveBooked(T0, T1, store0, store, frames, fts0, cnf.frameTerms, gs0, g, i);
      status := if ok && root != TERM_FALSE then SUndef else SFalse;
      if root == TERM_FALSE {
        UnsatisfiableFrame(T0, T1, store0, store, frames, i);
      } else if !ok {
        cnf.NotOkHasNoModels();
        NoModelNoStack();
      }
      res := status;
    }

    /** Simplifies the frames that are not simplified yet, until one shows unsatisfiability. */
    method SimplifyFormulas() returns (res: SStat)
      requires Valid()
      modifies this, cnf, cnf.logic, cnf.tmap, cnf.solver
      ensures Valid() && old(cnf.logic.terms) <= cnf.logic.terms && Stack() == old(Stack())
      ensures res == SUndef || res == SFalse
      ensures res == SUndef ==> simplifiedUntil == |frames|
      ensures res == SFalse ==> !StackSatisfiable(cnf.logic.terms, Stack())
    {
      hide DbMeans, Models, WfTerms, ProperTerm, Booked, GivensOk, StackHolds, Cnfizer.ValidOver;
      status := SUndef;
      res := SUndef;
      while simplifiedUntil < |frames|
        invariant Valid() && old(cnf.logic.terms) <= cnf.logic.terms && Stack() == old(Stack())
        invariant simplifiedUntil <= |frames| && res == SUndef
        decreases |frames| - simplifiedUntil
      {
        res := SimplifyFrame();
        if res != SUndef {
          return;
        }
      }
    }

    method Initialize()
      requires Valid()
      modifies cnf.tmap, cnf.solver
      ensures Valid() && Stack() == old(Stack())
    {
      hide DbMeans, Models, WfTerms, ProperTerm, Booked, GivensOk;
      ghost var vt, D := cnf.tmap.varToTerm, cnf.solver.clauses;
      cnf.Initialize();
      assert forall tau: Valuation :: old(cnf.DbModels(tau)) == Models(vt, tau, D);
      assert forall tau: Valuation :: cnf.DbModels(tau) == Models(cnf.tmap.varToTerm, tau, cnf.solver.clauses);
      StillMeans(cnf.logic.terms, vt, D, cnf.tmap.varToTerm, cnf.solver.clauses,
                 cnf.frameTerms, given);
    }

    /** Enables the frames on the stack and disables all others. */
    method Solve() returns (res: SStat)
      requires Valid() && simplifiedUntil == |frames|
      modifies this, cnf.tmap
      ensures Valid() && Stack() == old(Stack())
      ensures res == STrue || res == SFalse
      ensures res == STrue <==> StackSatisfiable(cnf.logic.terms, Stack())
    {
      hide DbMeans, Models, WfTerms, ProperTerm, Booked, GivensOk, ConstantsOk, FramesAssumed, StackSatisfiable;
      if !cnf.solver.ok {
        cnf.NotOkHasNoModels();
        NoModelNoStack();
        return SFalse;
      }
      var enFrames: seq<nat> := [];
      for i := 0 to |frames|
        invariant enFrames == frames[..i]
      {
        enFrames := enFrames + [store[frames[i]].id];
      }
      assert enFrames == frames;
      BookedFrames(cnf.logic.terms, cnf.frameTerms, given, store, frames);
      CheckMeaning();
      ghost var vt := cnf.tmap.varToTerm;
      var sat := cnf.Solve(enFrames);
      assert forall tau: Valuation :: old(cnf.DbModels(tau)) == Models(vt, tau, cnf.solver.clauses);
      assert forall tau: Valuation :: cnf.DbModels(tau) == Models(cnf.tmap.varToTerm, tau, cnf.solver.clauses);
      StillMeans(cnf.logic.terms, vt, cnf.solver.clauses, cnf.tmap.varToTerm, cnf.solver.clauses, cnf.frameTerms, given);
      status := if sat then STrue else SFalse;
      res := status;
    }

    /** With every frame on the stack simplified, the database under the assumptions of a check
        is satisfiable exactly when the stack is. */
    lemma CheckMeaning()
      requires Valid() && simplifiedUntil == |frames|
      ensures StackSatisfiable(cnf.logic.terms, Stack()) <==>
                exists tau: Valuation :: cnf.DbModels(tau) && FramesAssumed(tau, cnf.frameTerms, frames)
    {
      hide DbMeans, Models, WfTerms, ProperTerm, UserFormulas, FramesAssumed, TermMapper.Valid;
      if StackSatisfiable(cnf.logic.terms, Stack()) {
        var val: Valuation :| StackHolds(cnf.logic.terms, val, Stack());
        var tau := StackGivesModel(cnf.logic.terms, cnf.tmap.varToTerm, cnf.solver.clauses, cnf.frameTerms, given, store, frames, val);
        assert cnf.DbModels(tau) && FramesAssumed(tau, cnf.frameTerms, frames);
      }
      if tau: Valuation :| cnf.DbModels(tau) && FramesAssumed(tau, cnf.frameTerms, frames) {
        ModelSatisfiesStack(cnf.logic.terms, cnf.tmap.varToTerm, cnf.solver.clauses, cnf.frameTerms, given, store, frames, tau);
        assert StackHolds(cnf.logic.terms, tau, Stack());
      }
    }

    /** The answer of a check is exactly the satisfiability of the formulas on the stack. */
    method Check() returns (res: SStat)
      requires Valid()
      modifies this, cnf, cnf.logic, cnf.tmap, cnf.solver
      ensures Valid() && old(cnf.logic.terms) <= cnf.logic.terms && Stack() == old(Stack())
      ensures res == STrue || res == SFalse
      ensures res == STrue <==> StackSatisfiable(cnf.logic.terms, Stack())
    {
      hide DbMeans, Models, WfTerms, ProperTerm, Booked, GivensOk, StackSatisfiable, Cnfizer.ValidOver;
      res := SimplifyFormulas();
      if res == SUndef {
        Initialize();
        res := Solve();
      }
    }

    lemma NoModelNoStack()
      requires Valid() && forall tau: Valuation :: !cnf.DbModels(tau)
      ensures !StackSatisfiable(cnf.logic.terms, Stack())
    {
      forall val: Valuation | StackHolds(cnf.logic.terms, val, Stack()) ensures exists tau: Valuation :: cnf.DbModels(tau) {
        var tau := StackGivesModel(cnf.logic.terms, cnf.tmap.varToTerm, cnf.solver.clauses, cnf.frameTerms, given, store, frames, val);
        assert cnf.DbModels(tau);
      }
    }
  }

  /** Clauses that follow from the meaning of the constants do not change what the database means. */
  lemma StillMeans(T: seq<Pterm>, vt: seq<PTRef>, D: seq<Clause>, vt': seq<PTRef>, D': seq<Clause>, fts: seq<PTRef>, gs: seq<Given>)
    requires WfTerms(T) && ClausesOk(vt, D) && ClausesOk(vt', D') && GivensOk(T, fts, gs) && DbMeans(T, vt, D, fts, gs)
    requires forall tau: Valuation | Models(vt', tau, D') :: Models(vt, tau, D)
    requires forall tau: Valuation | Models(vt, tau, D) && ConstantsOk(tau) :: Models(vt', tau, D')
    ensures DbMeans(T, vt', D', fts, gs)
  {
    hide Models, WfTerms, GivensTrue;
  }

  lemma FormulasOfFrame(T: seq<Pterm>, store: seq<PushFrame>, frames: seq<nat>, i: nat)
    requires WfTerms(T) && FramesOk(store, frames) && StackOk(T, StackOf(store, frames)) && i < |frames|
    ensures AllBool(T, store[frames[i]].formulas) && store[frames[i]].id == frames[i]
  {
    var fs := StackOf(store, frames)[i];
    assert UserFormulas(T, fs);
    forall k | 0 <= k < |fs| ensures fs[k] < |T| && HasSortBool(T, fs[k]) {
      assert UserFormula(T, fs[k]);
    }
  }

  lemma RootStillMeans(T0: seq<Pterm>, T1: seq<Pterm>, T2: seq<Pterm>, root: PTRef, formulas: seq<PTRef>)
    requires WfTerms(T0) && WfTerms(T1) && WfTerms(T2) && T0 <= T1 <= T2
    requires root < |T1| && InStore(T0, formulas)
    requires forall val: Valuation :: PropEval(T1, val, root) == AllTrue(T0, val, formulas)
    ensures forall val: Valuation :: PropEval(T2, val, root) == AllTrue(T2, val, formulas) == AllTrue(T0, val, formulas)
  {
    forall val: Valuation ensures PropEval(T2, val, root) == AllTrue(T2, val, formulas) == AllTrue(T0, val, formulas) {
      PropEvalPrefix(T1, T2, val, root);
      PropEvalPrefixSeq(T0, T2, val, formulas);
    }
  }

  lemma BooksGrow(T: seq<Pterm>, T': seq<Pterm>, fts: seq<PTRef>, gs: seq<Given>, store: seq<PushFrame>, frames: seq<nat>, simplified: nat)
    requires WfTerms(T) && WfTerms(T') && T <= T' && Booked(T, fts, gs, store, frames, simplified)
    ensures Booked(T', fts, gs, store, frames, simplified)
  {
    hide GivenFollows, FrameCovered, UserFormulas, WfTerms;
    StackStaysOk(T, T', store, store, frames);
    forall k | 0 <= k < |gs| ensures GivenFollows(T', store, frames, gs[k]) {
      FollowsPrefix(T, T', store, frames, gs[k]);
    }
    forall i | 0 <= i < simplified ensures FrameCovered(T', fts, gs, store[frames[i]]) {
      CoveredPrefix(T, T', fts, fts, gs, gs, store[frames[i]]);
    }
  }

  lemma BookedStack(T: seq<Pterm>, fts: seq<PTRef>, gs: seq<Given>, store: seq<PushFrame>, frames: seq<nat>, simplified: nat)
    requires WfTerms(T) && Booked(T, fts, gs, store, frames, simplified)
    ensures FramesOk(store, frames) && StackOk(T, StackOf(store, frames))
  {
  }

  lemma BookedFrames(T: seq<Pterm>, fts: seq<PTRef>, gs: seq<Given>, store: seq<PushFrame>, frames: seq<nat>)
    requires WfTerms(T) && Booked(T, fts, gs, store, frames, |frames|)
    ensures forall i | 0 <= i < |frames| :: frames[i] < |fts|
  {
    hide GivenFollows, UserFormulas, WfTerms;
    forall i | 0 <= i < |frames| ensures frames[i] < |fts| {
      assert FrameCovered(T, fts, gs, store[frames[i]]);
    }
  }

  lemma PushBooked(T: seq<Pterm>, fts: seq<PTRef>, gs: seq<Given>, store: seq<PushFrame>, frames: seq<nat>, simplified: nat)
    requires WfTerms(T) && Booked(T, fts, gs, store, frames, simplified)
    ensures var store', frames' := store + [PushFrame(|store|, [], NoRef)], frames + [|store|];
      Booked(T, fts, gs, store', frames', simplified) && StackOf(store', frames') == StackOf(store, frames) + [[]]
  {
    hide FrameCovered, UserFormulas, WfTerms;
    var store', frames' := store + [PushFrame(|store|, [], NoRef)], frames + [|store|];
    EmptyIsUser(T);
    assert StackOf(store', frames') == StackOf(store, frames) + [[]];
    forall k | 0 <= k < |gs| ensures GivenFollows(T, store', frames', gs[k]) {
      assert GivenFollows(T, store, frames, gs[k]);
    }
  }

  lemma PopBooked(T: seq<Pterm>, fts: seq<PTRef>, gs: seq<Given>, store: seq<PushFrame>, frames: seq<nat>, simplified: nat)
    requires WfTerms(T) && Booked(T, fts, gs, store, frames, simplified) && |frames| > 1
    ensures var frames' := frames[..|frames| - 1];
      && FramesOk(store, frames') && StackOf(store, frames') == StackOf(store, frames)[..|frames| - 1]
      && Booked(T, fts, gs, store, frames', if simplified > |frames'| then |frames'| else simplified)
  {
    hide FrameCovered, UserFormulas, WfTerms;
    var frames' := frames[..|frames| - 1];
    assert StackOf(store, frames') == StackOf(store, frames)[..|frames| - 1];
    forall k | 0 <= k < |gs| ensures GivenFollows(T, store, frames', gs[k]) {
      assert GivenFollows(T, store, frames, gs[k]);
    }
  }

  lemma InsertBooked(T: seq<Pterm>, fts: seq<PTRef>, gs: seq<Given>, store: seq<PushFrame>, frames: seq<nat>, simplified: nat, root: PTRef)
    requires WfTerms(T) && Booked(T, fts, gs, store, frames, simplified) && UserFormula(T, root)
    ensures var last := frames[|frames| - 1];
      var store' := store[last := PushFrame(last, store[last].formulas + [root], NoRef)];
      var s := StackOf(store, frames);
      && FramesOk(store', frames) && StackOf(store', frames) == s[|s| - 1 := s[|s| - 1] + [root]]
      && Booked(T, fts, gs, store', frames, if simplified < |frames| - 1 then simplified else |frames| - 1)
  {
    hide GivenFollows, FrameCovered, UserFormulas, UserFormula, WfTerms;
    var last := frames[|frames| - 1];
    var store' := store[last := PushFrame(last, store[last].formulas + [root], NoRef)];
    InsertKeepsStack(T, store, store', frames, root);
    UserFormulaInStore(T, root);
    forall k | 0 <= k < |gs| ensures GivenFollows(T, store', frames, gs[k]) {
      InsertStrengthens(T, store, store', frames, root, gs[k]);
    }
  }

  /** The books after one more formula was given. */
  lemma GiveBooked(T: seq<Pterm>, T': seq<Pterm>, store: seq<PushFrame>, store': seq<PushFrame>, frames: seq<nat>,
                   fts: seq<PTRef>, fts': seq<PTRef>, gs: seq<Given>, g: Given, i: nat)
    requires WfTerms(T) && WfTerms(T') && T <= T' && |fts| <= |fts'| && i < |frames|
    requires Booked(T, fts, gs, store, frames, i) && SameFormulas(store, store')
    requires g.id == frames[i] < |fts'| && g.f < |T'|
    requires InStore(T', store[g.id].formulas)
    requires forall val: Valuation :: PropEval(T', val, g.f) == AllTrue(T', val, store[g.id].formulas)
    ensures FramesOk(store', frames) && StackOf(store', frames) == StackOf(store, frames)
    ensures StackOk(T', StackOf(store', frames)) && Booked(T', fts', gs + [g], store', frames, i + 1)
  {
    hide GivenFollows, FrameCovered, UserFormulas, WfTerms;
    StackStaysOk(T, T', store, store', frames);
    forall k | 0 <= k < |gs + [g]| ensures GivenFollows(T', store', frames, (gs + [g])[k]) {
      if k < |gs| {
        FollowsPrefix(T, T', store, frames, gs[k]);
        FollowsSame(T', store, store', frames, gs[k]);
      } else {
        NewGivenFollows(T', store, store', frames, g);
      }
    }
    forall k | 0 <= k < i + 1 ensures FrameCovered(T', fts', gs + [g], store'[frames[k]]) {
      if k < i {
        CoveredPrefix(T, T', fts, fts', gs, gs + [g], store[frames[k]]);
      } else {
        NewFrameCovered(T', fts', gs, g, store[frames[i]]);
      }
      CoveredSame(T', fts', gs + [g], store[frames[k]], store'[frames[k]]);
    }
  }

  predicate SameFormulas(store: seq<PushFrame>, store': seq<PushFrame>) {
    |store'| == |store| && forall r | 0 <= r < |store| :: store'[r].id == store[r].id && store'[r].formulas == store[r].formulas
  }

  lemma StackStaysOk(T: seq<Pterm>, T': seq<Pterm>, store: seq<PushFrame>, store': seq<PushFrame>, frames: seq<nat>)
    requires WfTerms(T) && WfTerms(T') && T <= T' && SameFormulas(store, store')
    requires FramesOk(store, frames) && StackOk(T, StackOf(store, frames))
    ensures FramesOk(store', frames) && StackOf(store', frames) == StackOf(store, frames)
    ensures StackOk(T', StackOf(store', frames))
  {
    hide UserFormulas, WfTerms;
    forall k | 0 <= k < |frames|
      ensures StackOf(store', frames)[k] == StackOf(store, frames)[k]
      ensures UserFormulas(T', StackOf(store, frames)[k]) && InStore(T', StackOf(store, frames)[k])
    {
      UserFormulasPrefix(T, T', StackOf(store, frames)[k]);
    }
  }

  lemma FollowsSame(T: seq<Pterm>, store: seq<PushFrame>, store': seq<PushFrame>, frames: seq<nat>, g: Given)
    requires WfTerms(T) && SameFormulas(store, store') && GivenFollows(T, store, frames, g)
    ensures GivenFollows(T, store', frames, g)
  {
  }

  lemma NewGivenFollows(T: seq<Pterm>, store: seq<PushFrame>, store': seq<PushFrame>, frames: seq<nat>, g: Given)
    requires WfTerms(T) && SameFormulas(store, store') && g.id < |store| && g.f < |T| && InStore(T, store[g.id].formulas)
    requires forall val: Valuation :: PropEval(T, val, g.f) == AllTrue(T, val, store[g.id].formulas)
    ensures GivenFollows(T, store', frames, g)
  {
  }

  lemma NewFrameCovered(T: seq<Pterm>, fts: seq<PTRef>, gs: seq<Given>, g: Given, p: PushFrame)
    requires WfTerms(T) && g.id == p.id < |fts| && g.f < |T| && InStore(T, p.formulas)
    requires forall val: Valuation :: PropEval(T, val, g.f) == AllTrue(T, val, p.formulas)
    ensures FrameCovered(T, fts, gs + [g], p)
  {
    assert (gs + [g])[|gs|] == g;
  }

  lemma CoveredSame(T: seq<Pterm>, fts: seq<PTRef>, gs: seq<Given>, p: PushFrame, p': PushFrame)
    requires WfTerms(T) && p'.id == p.id && p'.formulas == p.formulas && FrameCovered(T, fts, gs, p)
    ensures FrameCovered(T, fts, gs, p')
  {
  }

  lemma UnsatisfiableFrame(T: seq<Pterm>, T': seq<Pterm>, store: seq<PushFrame>, store': seq<PushFrame>, frames: seq<nat>, i: nat)
    requires WfTerms(T) && WfTerms(T') && T <= T' && FramesOk(store, frames) && i < |frames|
    requires FramesOk(store', frames) && StackOk(T', StackOf(store', frames)) && StackOf(store', frames) == StackOf(store, frames)
    requires InStore(T', store[frames[i]].formulas)
    requires forall val: Valuation :: PropEval(T', val, TERM_FALSE) == AllTrue(T', val, store[frames[i]].formulas)
    ensures !StackSatisfiable(T', StackOf(store', frames))
  {
    forall val: Valuation ensures !StackHolds(T', val, StackOf(store', frames)) {
      assert !PropEval(T', val, TERM_FALSE);
      assert !AllTrue(T', val, StackOf(store', frames)[i]);
    }
  }

  lemma EmptyIsUser(T: seq<Pterm>)
    requires WfTerms(T)
    ensures UserFormulas(T, []) && InStore(T, [])
  {
  }

  lemma InsertKeepsStack(T: seq<Pterm>, store: seq<PushFrame>, store': seq<PushFrame>, frames: seq<nat>, root: PTRef)
    requires WfTerms(T) && UserFormula(T, root) && FramesOk(store, frames) && StackOk(T, StackOf(store, frames))
    requires var last := frames[|frames| - 1];
      store' == store[last := PushFrame(last, store[last].formulas + [root], NoRef)]
    ensures FramesOk(store', frames) && StackOk(T, StackOf(store', frames))
    ensures var s := StackOf(store, frames); StackOf(store', frames) == s[|s| - 1 := s[|s| - 1] + [root]]
  {
    hide UserFormula;
    var s, s' := StackOf(store, frames), StackOf(store', frames);
    forall i | 0 <= i < |frames|
      ensures s'[i] == s[|s| - 1 := s[|s| - 1] + [root]][i]
      ensures UserFormulas(T, s'[i]) && InStore(T, s'[i])
    {
      assert UserFormulas(T, s[i]) && InStore(T, s[i]);
      UserFormulaInStore(T, root);
    }
  }

  lemma UserFormulaInStore(T: seq<Pterm>, f: PTRef)
    requires WfTerms(T) && UserFormula(T, f)
    ensures f < |T|
  {
  }

  lemma InsertStrengthens(T: seq<Pterm>, store: seq<PushFrame>, store': seq<PushFrame>, frames: seq<nat>, root: PTRef, g: Given)
    requires WfTerms(T) && root < |T| && FramesOk(store, frames) && GivenFollows(T, store, frames, g)
    requires var last := frames[|frames| - 1];
      store' == store[last := PushFrame(last, store[last].formulas + [root], NoRef)]
    ensures GivenFollows(T, store', frames, g)
  {
    if g.id in frames {
      forall val: Valuation | AllTrue(T, val, store'[g.id].formulas) ensures PropEval(T, val, g.f) {
        assert forall f | f in store[g.id].formulas :: f in store'[g.id].formulas;
        assert AllTrue(T, val, store[g.id].formulas);
      }
    }
  }
}

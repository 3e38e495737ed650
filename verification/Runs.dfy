/** Laws of whole runs: which formulas a check sees, and that popped frames never matter. */
module Runs {
  import opened Terms
  import opened TermMapping
  import opened LogicStore
  import opened CnfShapes
  import opened Incremental

  // ----- commands and answers -----

  datatype Command = DoPush | DoPop | DoAssert(f: PTRef) | DoPushAssert(f: PTRef) | DoCheck

  predicate Asserts(c: Command) {
    c.DoAssert? || c.DoPushAssert?
  }

  ghost predicate CommandsOk(T: seq<Pterm>, cmds: seq<Command>)
    requires WfTerms(T)
  {
    forall i | 0 <= i < |cmds| && Asserts(cmds[i]) :: UserFormula(T, cmds[i].f)
  }

  /** The stack of formulas as the user thinks of it. */
  ghost function Apply(stack: seq<seq<PTRef>>, c: Command): (s: seq<seq<PTRef>>)
    requires stack != []
    ensures s != []
  {
    match c
    case DoPush => stack + [[]]
    case DoPop => if |stack| > 1 then stack[..|stack| - 1] else stack
    case DoAssert(f) => stack[|stack| - 1 := stack[|stack| - 1] + [f]]
    case DoPushAssert(f) => stack + [[f]]
    case DoCheck => stack
  }

  lemma ApplyOk(T: seq<Pterm>, stack: seq<seq<PTRef>>, c: Command)
    requires WfTerms(T) && stack != [] && StackOk(T, stack) && (Asserts(c) ==> UserFormula(T, c.f))
    ensures StackOk(T, Apply(stack, c))
  {
    hide UserFormula;
    if Asserts(c) {
      UserFormulaInStore(T, c.f);
    }
  }

  /** The answers a user expects: for every check, whether all formulas then on the stack hold together. */
  ghost function Answers(T: seq<Pterm>, stack: seq<seq<PTRef>>, cmds: seq<Command>): seq<bool>
    requires WfTerms(T) && stack != [] && StackOk(T, stack) && CommandsOk(T, cmds)
    decreases |cmds|
  {
    if cmds == [] then []
    else
      assert Asserts(cmds[0]) ==> UserFormula(T, cmds[0].f);
      ApplyOk(T, stack, cmds[0]);
      (if cmds[0].DoCheck? then [StackSatisfiable(T, stack)] else []) + Answers(T, Apply(stack, cmds[0]), cmds[1..])
  }

  lemma SatisfiablePrefix(T: seq<Pterm>, T': seq<Pterm>, stack: seq<seq<PTRef>>)
    requires WfTerms(T) && WfTerms(T') && T <= T' && StackOk(T, stack)
    ensures StackOk(T', stack) && StackSatisfiable(T', stack) == StackSatisfiable(T, stack)
  {
    hide UserFormulas, WfTerms;
    forall i | 0 <= i < |stack| ensures UserFormulas(T', stack[i]) && InStore(T', stack[i]) {
      UserFormulasPrefix(T, T', stack[i]);
    }
    forall val: Valuation ensures StackHolds(T', val, stack) == StackHolds(T, val, stack) {
      forall i | 0 <= i < |stack| ensures AllTrue(T', val, stack[i]) == AllTrue(T, val, stack[i]) {
        UserFormulasPrefix(T, T', stack[i]);
      }
    }
  }

  lemma AnswersStep(T: seq<Pterm>, stack: seq<seq<PTRef>>, cmds: seq<Command>, i: nat)
    requires WfTerms(T) && stack != [] && StackOk(T, stack) && i < |cmds| && CommandsOk(T, cmds[i..])
    ensures Asserts(cmds[i]) ==> UserFormula(T, cmds[i].f)
    ensures StackOk(T, Apply(stack, cmds[i])) && CommandsOk(T, cmds[i + 1..])
    ensures Answers(T, stack, cmds[i..]) ==
            (if cmds[i].DoCheck? then [StackSatisfiable(T, stack)] else []) + Answers(T, Apply(stack, cmds[i]), cmds[i + 1..])
  {
    hide UserFormula, StackSatisfiable, Apply;
    assert cmds[i..][0] == cmds[i] && cmds[i..][1..] == cmds[i + 1..];
    ApplyOk(T, stack, cmds[i]);
    var rest := cmds[i + 1..];
    forall k | 0 <= k < |rest| && Asserts(rest[k]) ensures UserFormula(T, rest[k].f) {
      assert rest[k] == cmds[i..][k + 1];
    }
  }

  lemma NoMoreAnswers(T: seq<Pterm>, stack: seq<seq<PTRef>>, cmds: seq<Command>)
    requires WfTerms(T) && stack != [] && StackOk(T, stack)
    ensures CommandsOk(T, cmds[|cmds|..]) && Answers(T, stack, cmds[|cmds|..]) == []
  {
  }

  // ----- popped frames never matter -----

  /** With d frames open, the commands close each of them and each that they open, and no other. */
  predicate Balanced(cmds: seq<Command>, d: nat) {
    if cmds == [] then d == 0
    else
      match cmds[0]
      case DoPush => Balanced(cmds[1..], d + 1)
      case DoPushAssert(_) => Balanced(cmds[1..], d + 1)
      case DoPop => d > 0 && Balanced(cmds[1..], d - 1)
      case DoAssert(_) => Balanced(cmds[1..], d)
      case DoCheck => Balanced(cmds[1..], d)
  }

  lemma CommandsParts(T: seq<Pterm>, a: seq<Command>, b: seq<Command>)
    requires WfTerms(T) && CommandsOk(T, a + b)
    ensures CommandsOk(T, a) && CommandsOk(T, b)
  {
    hide UserFormula;
    forall i | 0 <= i < |a| && Asserts(a[i]) ensures UserFormula(T, a[i].f) {
      assert (a + b)[i] == a[i];
    }
    forall i | 0 <= i < |b| && Asserts(b[i]) ensures UserFormula(T, b[i].f) {
      assert (a + b)[|a| + i] == b[i];
    }
  }

  lemma StackParts(T: seq<Pterm>, base: seq<seq<PTRef>>, top: seq<seq<PTRef>>)
    requires WfTerms(T) && StackOk(T, base + top)
    ensures StackOk(T, base)
  {
    hide UserFormulas, InStore;
    forall i | 0 <= i < |base| ensures UserFormulas(T, base[i]) && InStore(T, base[i]) {
      assert (base + top)[i] == base[i];
    }
  }

  /** One command on a stack whose part above base holds d + 1 frames leaves base alone. */
  lemma AboveBase(base: seq<seq<PTRef>>, top: seq<seq<PTRef>>, c: Command) returns (top': seq<seq<PTRef>>)
    requires base != [] && top != [] && (c.DoPop? ==> |top| > 1)
    ensures Apply(base + top, c) == base + top'
    ensures |top'| == match c { case DoPush => |top| + 1 case DoPushAssert(_) => |top| + 1 case DoPop => |top| - 1
                                case DoAssert(_) => |top| case DoCheck => |top| }
  {
    top' := Apply(top, c);
    assert (base + top)[|base + top| - 1] == top[|top| - 1];
    assert Apply(base + top, c) == base + top';
  }

  /** Commands that close the d frames above the frame on base, then a pop: base is back. */
  lemma {:induction false} ClosedAgain(T: seq<Pterm>, base: seq<seq<PTRef>>, top: seq<seq<PTRef>>,
                                       cmds: seq<Command>, rest: seq<Command>)
    requires WfTerms(T) && base != [] && top != [] && StackOk(T, base + top) && Balanced(cmds, |top| - 1)
    requires CommandsOk(T, cmds + ([DoPop] + rest))
    ensures StackOk(T, base) && CommandsOk(T, cmds) && CommandsOk(T, rest)
    ensures Answers(T, base + top, cmds + ([DoPop] + rest)) == Answers(T, base + top, cmds) + Answers(T, base, rest)
    decreases |cmds|
  {
    hide UserFormula, StackSatisfiable, CommandsOk, StackOk, WfTerms, Apply;
    var all := cmds + ([DoPop] + rest);
    CommandsParts(T, cmds, [DoPop] + rest);
    CommandsParts(T, [DoPop], rest);
    StackParts(T, base, top);
    AnswersHead(T, base + top, all);
    if cmds == [] {
      assert all == [DoPop] + rest && all[1..] == rest;
      PopsTop(base, top);
    } else {
      AnswersHead(T, base + top, cmds);
      assert all[0] == cmds[0] && all[1..] == cmds[1..] + ([DoPop] + rest);
      var top' := AboveBase(base, top, cmds[0]);
      ClosedAgain(T, base, top', cmds[1..], rest);
    }
  }

  lemma PopsTop(base: seq<seq<PTRef>>, top: seq<seq<PTRef>>)
    requires base != [] && |top| == 1
    ensures Apply(base + top, DoPop) == base
  {
  }

  lemma AnswersHead(T: seq<Pterm>, stack: seq<seq<PTRef>>, cmds: seq<Command>)
    requires WfTerms(T) && stack != [] && StackOk(T, stack) && cmds != [] && CommandsOk(T, cmds)
    ensures StackOk(T, Apply(stack, cmds[0])) && CommandsOk(T, cmds[1..])
    ensures Answers(T, stack, cmds) ==
            (if cmds[0].DoCheck? then [StackSatisfiable(T, stack)] else []) + Answers(T, Apply(stack, cmds[0]), cmds[1..])
  {
    hide UserFormula, StackSatisfiable, Apply, StackOk;
    assert cmds[0..] == cmds;
    AnswersStep(T, stack, cmds, 0);
  }

  /** A frame that is opened and closed again leaves all later answers as if it had never been:
      for both ways of opening it, with any balanced commands in between. */
  lemma PoppedFramesNeverMatter(T: seq<Pterm>, stack: seq<seq<PTRef>>, open: Command, cmds: seq<Command>, rest: seq<Command>)
    requires WfTerms(T) && stack != [] && StackOk(T, stack) && (open.DoPush? || open.DoPushAssert?) && Balanced(cmds, 0)
    requires CommandsOk(T, [open] + cmds + [DoPop] + rest)
    ensures CommandsOk(T, [open] + cmds) && CommandsOk(T, rest)
    ensures Answers(T, stack, [open] + cmds + [DoPop] + rest) == Answers(T, stack, [open] + cmds) + Answers(T, stack, rest)
  {
    hide UserFormula, StackSatisfiable, CommandsOk, StackOk, WfTerms, Balanced;
    var all := [open] + cmds + [DoPop] + rest;
    var tail := cmds + ([DoPop] + rest);
    assert all == [open] + tail && all == ([open] + cmds) + ([DoPop] + rest);
    CommandsParts(T, [open] + cmds, [DoPop] + rest);
    CommandsParts(T, [DoPop], rest);
    AnswersHead(T, stack, all);
    AnswersHead(T, stack, [open] + cmds);
    assert all[1..] == tail && ([open] + cmds)[1..] == cmds;
    var frame: seq<PTRef> := if open.DoPush? then [] else [open.f];
    assert Apply(stack, open) == stack + [frame];
    ClosedAgain(T, stack, [frame], cmds, rest);
  }

  /** A pop that finds only the bottom frame changes nothing. */
  lemma BottomStays(T: seq<Pterm>, stack: seq<seq<PTRef>>, rest: seq<Command>)
    requires WfTerms(T) && |stack| == 1 && StackOk(T, stack) && CommandsOk(T, [DoPop] + rest)
    ensures CommandsOk(T, rest) && Answers(T, stack, [DoPop] + rest) == Answers(T, stack, rest)
  {
    hide UserFormula, StackSatisfiable, CommandsOk, StackOk, WfTerms, Answers;
    AnswersHead(T, stack, [DoPop] + rest);
    assert ([DoPop] + rest)[1..] == rest;
  }

  // ----- which formulas a check sees, without any stack -----

  /** The number of open frames after the first k commands, from n at the start. */
  function Level(n: nat, cmds: seq<Command>, k: nat): (l: nat)
    requires n > 0 && k <= |cmds|
    ensures l > 0
  {
    if k == 0 then n
    else
      var l := Level(n, cmds, k - 1);
      match cmds[k - 1]
      case DoPush => l + 1
      case DoPushAssert(_) => l + 1
      case DoPop => if l > 1 then l - 1 else l
      case DoAssert(_) => l
      case DoCheck => l
  }

  /** Since the first i commands the number of frames has not gone below l. */
  ghost predicate StayedOpen(n: nat, cmds: seq<Command>, l: nat, i: nat, k: nat)
    requires n > 0 && i <= k <= |cmds|
  {
    forall j: nat | i <= j <= k :: Level(n, cmds, j) >= l
  }

  /** The formula asserted by command i is still asserted after k commands: its frame is still there. */
  ghost predicate Live(n: nat, cmds: seq<Command>, i: nat, k: nat)
    requires n > 0 && i < k <= |cmds|
  {
    StayedOpen(n, cmds, Level(n, cmds, i + 1), i + 1, k)
  }

  /** The valuation makes true what was asserted in frame l and is still asserted after k commands. */
  ghost predicate FrameTrue(T: seq<Pterm>, val: Valuation, stack: seq<seq<PTRef>>, cmds: seq<Command>, k: nat, l: nat)
    requires WfTerms(T) && StackOk(T, stack) && stack != [] && CommandsOk(T, cmds) && k <= |cmds|
  {
    && (l < |stack| && StayedOpen(|stack|, cmds, l + 1, 0, k) ==> AllTrue(T, val, stack[l]))
    && (forall i: nat | i < k && Asserts(cmds[i]) && Level(|stack|, cmds, i + 1) == l + 1 && Live(|stack|, cmds, i, k) ::
          PropEval(T, val, cmds[i].f))
  }

  /** The valuation makes true all that is still asserted after k commands. */
  ghost predicate LiveTrue(T: seq<Pterm>, val: Valuation, stack: seq<seq<PTRef>>, cmds: seq<Command>, k: nat)
    requires WfTerms(T) && StackOk(T, stack) && stack != [] && CommandsOk(T, cmds) && k <= |cmds|
  {
    && (forall l: nat | l < |stack| && StayedOpen(|stack|, cmds, l + 1, 0, k) :: AllTrue(T, val, stack[l]))
    && (forall i: nat | i < k && Asserts(cmds[i]) && Live(|stack|, cmds, i, k) :: PropEval(T, val, cmds[i].f))
  }

  /** All that is still asserted after k commands holds together. */
  ghost predicate LiveSatisfiable(T: seq<Pterm>, stack: seq<seq<PTRef>>, cmds: seq<Command>, k: nat)
    requires WfTerms(T) && StackOk(T, stack) && stack != [] && CommandsOk(T, cmds) && k <= |cmds|
  {
    exists val: Valuation :: LiveTrue(T, val, stack, cmds, k)
  }

  /** The stack after the first k commands. */
  ghost function After(stack: seq<seq<PTRef>>, cmds: seq<Command>, k: nat): (s: seq<seq<PTRef>>)
    requires stack != [] && k <= |cmds|
    ensures s != []
  {
    if k == 0 then stack else Apply(After(stack, cmds, k - 1), cmds[k - 1])
  }

  /** The number of checks among the first k commands. */
  function Checks(cmds: seq<Command>, k: nat): nat
    requires k <= |cmds|
  {
    if k == 0 then 0 else Checks(cmds, k - 1) + if cmds[k - 1].DoCheck? then 1 else 0
  }

  lemma StayedOpenStep(n: nat, cmds: seq<Command>, l: nat, i: nat, k: nat)
    requires n > 0 && i <= k < |cmds|
    ensures StayedOpen(n, cmds, l, i, k + 1) == (StayedOpen(n, cmds, l, i, k) && Level(n, cmds, k + 1) >= l)
    ensures StayedOpen(n, cmds, l, i, k) ==> Level(n, cmds, k) >= l
    ensures Level(n, cmds, k + 1) >= l ==> StayedOpen(n, cmds, l, k + 1, k + 1)
  {
    hide Level;
  }

  /** How one command changes what frame l asserts. */
  lemma FrameTrueStep(T: seq<Pterm>, val: Valuation, stack: seq<seq<PTRef>>, cmds: seq<Command>, k: nat, l: nat)
    requires WfTerms(T) && StackOk(T, stack) && stack != [] && CommandsOk(T, cmds) && k < |cmds|
    requires Level(|stack|, cmds, k + 1) >= l + 1
    ensures Asserts(cmds[k]) ==> UserFormula(T, cmds[k].f)
    ensures FrameTrue(T, val, stack, cmds, k + 1, l) ==
            ((Level(|stack|, cmds, k) >= l + 1 ==> FrameTrue(T, val, stack, cmds, k, l))
             && (Asserts(cmds[k]) && Level(|stack|, cmds, k + 1) == l + 1 ==> PropEval(T, val, cmds[k].f)))
  {
    hide Level, StayedOpen, PropEval, AllTrue, WfTerms;
    var n := |stack|;
    StayedOpenStep(n, cmds, l + 1, 0, k);
    forall i: nat | i < k && Level(n, cmds, i + 1) == l + 1
      ensures Live(n, cmds, i, k + 1) == (Live(n, cmds, i, k) && Level(n, cmds, k) >= l + 1)
    {
      StayedOpenStep(n, cmds, l + 1, i + 1, k);
    }
    if Level(n, cmds, k + 1) == l + 1 {
      StayedOpenStep(n, cmds, l + 1, k, k);
      assert Live(n, cmds, k, k + 1);
    }
    if FrameTrue(T, val, stack, cmds, k + 1, l) {
      forall i: nat | i < k && Asserts(cmds[i]) && Level(n, cmds, i + 1) == l + 1 && Live(n, cmds, i, k)
                      && Level(n, cmds, k) >= l + 1
        ensures PropEval(T, val, cmds[i].f)
      {
        assert Live(n, cmds, i, k + 1);
      }
      assert Level(n, cmds, k) >= l + 1 ==> FrameTrue(T, val, stack, cmds, k, l);
    } else if !(l < |stack| && StayedOpen(n, cmds, l + 1, 0, k + 1) && !AllTrue(T, val, stack[l])) {
      var i: nat :| i < k + 1 && Asserts(cmds[i]) && Level(n, cmds, i + 1) == l + 1 && Live(n, cmds, i, k + 1)
                    && !PropEval(T, val, cmds[i].f);
      assert i < k ==> Live(n, cmds, i, k);
    }
  }

  lemma AllTrueJoin(T: seq<Pterm>, val: Valuation, fs: seq<PTRef>, f: PTRef)
    requires WfTerms(T) && InStore(T, fs) && f < |T|
    ensures InStore(T, fs + [f]) && AllTrue(T, val, fs + [f]) == (AllTrue(T, val, fs) && PropEval(T, val, f))
  {
    var all := fs + [f];
    assert all[|fs|] == f;
    if AllTrue(T, val, all) {
      assert f in all;
      forall x | x in fs ensures PropEval(T, val, x) {
        assert x in all;
      }
    }
  }

  /** What one command does to the frames. */
  lemma AppliedFrame(T: seq<Pterm>, val: Valuation, s: seq<seq<PTRef>>, c: Command, l: nat)
    requires WfTerms(T) && s != [] && StackOk(T, s) && (Asserts(c) ==> UserFormula(T, c.f))
    requires l < |Apply(s, c)| && StackOk(T, Apply(s, c))
    ensures AllTrue(T, val, Apply(s, c)[l]) ==
            ((l < |s| ==> AllTrue(T, val, s[l])) && (Asserts(c) && l == |Apply(s, c)| - 1 ==> PropEval(T, val, c.f)))
  {
    hide UserFormula, PropEval, AllTrue, WfTerms;
    if Asserts(c) {
      UserFormulaInStore(T, c.f);
      var fs: seq<PTRef> := if l < |s| then s[l] else [];
      AllTrueJoin(T, val, fs, c.f);
      assert l >= |s| ==> fs + [c.f] == [c.f];
    }
    EmptyIsTrue(T, val);
  }

  lemma AppliedLevel(n: nat, s: seq<seq<PTRef>>, cmds: seq<Command>, k: nat)
    requires n > 0 && s != [] && k < |cmds| && |s| == Level(n, cmds, k)
    ensures |Apply(s, cmds[k])| == Level(n, cmds, k + 1)
  {
  }

  /** The stack after k commands holds frame by frame exactly what is still asserted. */
  lemma {:induction false} AfterMeans(T: seq<Pterm>, val: Valuation, stack: seq<seq<PTRef>>, cmds: seq<Command>, k: nat)
    requires WfTerms(T) && StackOk(T, stack) && stack != [] && CommandsOk(T, cmds) && k <= |cmds|
    ensures |After(stack, cmds, k)| == Level(|stack|, cmds, k) && StackOk(T, After(stack, cmds, k))
    ensures forall l: nat | l < |After(stack, cmds, k)| ::
              AllTrue(T, val, After(stack, cmds, k)[l]) == FrameTrue(T, val, stack, cmds, k, l)
    decreases k
  {
    if k == 0 {
      NothingYet(T, val, stack, cmds);
    } else {
      hide UserFormula, PropEval, AllTrue, WfTerms, FrameTrue, Apply, Level, StackOk, CommandsOk;
      var s, s', c := After(stack, cmds, k - 1), After(stack, cmds, k), cmds[k - 1];
      AfterMeans(T, val, stack, cmds, k - 1);
      CommandOk(T, cmds, k - 1);
      ApplyOk(T, s, c);
      AppliedLevel(|stack|, s, cmds, k - 1);
      forall l: nat | l < |s'| ensures AllTrue(T, val, s'[l]) == FrameTrue(T, val, stack, cmds, k, l) {
        FrameTrueStep(T, val, stack, cmds, k - 1, l);
        AppliedFrame(T, val, s, c, l);
      }
    }
  }

  lemma CommandOk(T: seq<Pterm>, cmds: seq<Command>, k: nat)
    requires WfTerms(T) && CommandsOk(T, cmds) && k < |cmds|
    ensures Asserts(cmds[k]) ==> UserFormula(T, cmds[k].f)
  {
    hide UserFormula;
  }

  lemma NothingYet(T: seq<Pterm>, val: Valuation, stack: seq<seq<PTRef>>, cmds: seq<Command>)
    requires WfTerms(T) && StackOk(T, stack) && stack != [] && CommandsOk(T, cmds)
    ensures forall l: nat | l < |stack| :: AllTrue(T, val, stack[l]) == FrameTrue(T, val, stack, cmds, 0, l)
  {
    hide PropEval, AllTrue, WfTerms;
  }

  lemma EmptyIsTrue(T: seq<Pterm>, val: Valuation)
    requires WfTerms(T)
    ensures AllTrue(T, val, [])
  {
  }

  // ----- what a check answers -----

  /** The answers before command k, one for each check, and the answers from there on. */
  lemma {:induction false} AnswersSplit(T: seq<Pterm>, stack: seq<seq<PTRef>>, cmds: seq<Command>, k: nat)
    returns (before: seq<bool>)
    requires WfTerms(T) && StackOk(T, stack) && stack != [] && CommandsOk(T, cmds) && k <= |cmds|
    ensures |before| == Checks(cmds, k) && StackOk(T, After(stack, cmds, k)) && CommandsOk(T, cmds[k..])
    ensures Answers(T, stack, cmds) == before + Answers(T, After(stack, cmds, k), cmds[k..])
    decreases k
  {
    hide UserFormula, StackSatisfiable, StackOk, WfTerms, Apply, Answers, CommandsOk;
    if k == 0 {
      before := [];
      assert cmds[0..] == cmds;
    } else {
      var s := After(stack, cmds, k - 1);
      var b := AnswersSplit(T, stack, cmds, k - 1);
      AnswersStep(T, s, cmds, k - 1);
      var answer := if cmds[k - 1].DoCheck? then [StackSatisfiable(T, s)] else [];
      before := b + answer;
      AssocAnswers(b, answer, Answers(T, After(stack, cmds, k), cmds[k..]));
    }
  }

  lemma AssocAnswers(a: seq<bool>, b: seq<bool>, c: seq<bool>)
    ensures a + (b + c) == a + b + c
  {
  }

  lemma LiveIsStack(T: seq<Pterm>, val: Valuation, stack: seq<seq<PTRef>>, cmds: seq<Command>, k: nat)
    requires WfTerms(T) && StackOk(T, stack) && stack != [] && CommandsOk(T, cmds) && k <= |cmds|
    requires StackOk(T, After(stack, cmds, k))
    ensures LiveTrue(T, val, stack, cmds, k) == StackHolds(T, val, After(stack, cmds, k))
  {
    hide Level, After, PropEval, AllTrue, WfTerms;
    var n, s := |stack|, After(stack, cmds, k);
    AfterMeans(T, val, stack, cmds, k);
    if LiveTrue(T, val, stack, cmds, k) {
      forall l: nat | l < |s| ensures AllTrue(T, val, s[l]) {
        assert FrameTrue(T, val, stack, cmds, k, l);
      }
    } else if l: nat :| l < n && StayedOpen(n, cmds, l + 1, 0, k) && !AllTrue(T, val, stack[l]) {
      assert Level(n, cmds, k) >= l + 1 && !FrameTrue(T, val, stack, cmds, k, l);
    } else {
      var i: nat :| i < k && Asserts(cmds[i]) && Live(n, cmds, i, k) && !PropEval(T, val, cmds[i].f);
      var l := Level(n, cmds, i + 1) - 1;
      assert Level(n, cmds, k) >= l + 1 && !FrameTrue(T, val, stack, cmds, k, l);
    }
  }

  /** Every check is answered by whether all that is still asserted at that point holds together:
      the formulas of the frames that are still open, and nothing that has been popped. */
  lemma AnswerMeaning(T: seq<Pterm>, stack: seq<seq<PTRef>>, cmds: seq<Command>, k: nat)
    requires WfTerms(T) && StackOk(T, stack) && stack != [] && CommandsOk(T, cmds) && k < |cmds| && cmds[k].DoCheck?
    ensures Checks(cmds, k) < |Answers(T, stack, cmds)|
    ensures Answers(T, stack, cmds)[Checks(cmds, k)] <==> LiveSatisfiable(T, stack, cmds, k)
  {
    hide UserFormula, StackOk, WfTerms, After, Answers, CommandsOk, LiveTrue, StackHolds;
    var s := After(stack, cmds, k);
    var before := AnswersSplit(T, stack, cmds, k);
    AnswersStep(T, s, cmds, k);
    assert Answers(T, stack, cmds)[|before|] == StackSatisfiable(T, s);
    forall val: Valuation ensures LiveTrue(T, val, stack, cmds, k) == StackHolds(T, val, s) {
      LiveIsStack(T, val, stack, cmds, k);
    }
  }

  /** One answer for every check. */
  lemma AnswerCount(T: seq<Pterm>, stack: seq<seq<PTRef>>, cmds: seq<Command>)
    requires WfTerms(T) && StackOk(T, stack) && stack != [] && CommandsOk(T, cmds)
    ensures |Answers(T, stack, cmds)| == Checks(cmds, |cmds|)
  {
    hide UserFormula, StackOk, WfTerms, After, Answers, CommandsOk;
    var before := AnswersSplit(T, stack, cmds, |cmds|);
    NoMoreAnswers(T, After(stack, cmds, |cmds|), cmds);
  }

  // ----- when a formula stops being asserted -----

  /** With d frames open, the commands come to a pop that closes one frame more. */
  predicate Closes(cmds: seq<Command>, d: nat) {
    if cmds == [] then false
    else
      match cmds[0]
      case DoPush => Closes(cmds[1..], d + 1)
      case DoPushAssert(_) => Closes(cmds[1..], d + 1)
      case DoPop => d == 0 || Closes(cmds[1..], d - 1)
      case DoAssert(_) => Closes(cmds[1..], d)
      case DoCheck => Closes(cmds[1..], d)
  }

  lemma {:induction false} StaysUntilClosed(n: nat, cmds: seq<Command>, l: nat, i: nat, k: nat)
    requires n > 0 && i <= k <= |cmds| && 1 < l <= Level(n, cmds, i)
    ensures StayedOpen(n, cmds, l, i, k) <==> !Closes(cmds[i..k], Level(n, cmds, i) - l)
    decreases k - i
  {
    if i == k {
    } else {
      assert cmds[i..k][0] == cmds[i] && cmds[i..k][1..] == cmds[i + 1..k];
      if Level(n, cmds, i + 1) >= l {
        StaysUntilClosed(n, cmds, l, i + 1, k);
        assert StayedOpen(n, cmds, l, i, k) == StayedOpen(n, cmds, l, i + 1, k);
      }
    }
  }

  /** A formula stays asserted until the pop that matches its frame; in the bottom frame, for ever. */
  lemma AssertedUntilPopped(n: nat, cmds: seq<Command>, i: nat, k: nat)
    requires n > 0 && i < k <= |cmds|
    ensures Live(n, cmds, i, k) <==> Level(n, cmds, i + 1) == 1 || !Closes(cmds[i + 1..k], 0)
  {
    if Level(n, cmds, i + 1) > 1 {
      StaysUntilClosed(n, cmds, Level(n, cmds, i + 1), i + 1, k);
    }
  }

  /** So every check before that pop is answered "satisfiable" only together with the formula. */
  lemma CheckedTogether(T: seq<Pterm>, stack: seq<seq<PTRef>>, cmds: seq<Command>, i: nat, k: nat)
    requires WfTerms(T) && StackOk(T, stack) && stack != [] && CommandsOk(T, cmds)
    requires i < k < |cmds| && Asserts(cmds[i]) && cmds[k].DoCheck? && !Closes(cmds[i + 1..k], 0)
    ensures UserFormula(T, cmds[i].f) && Checks(cmds, k) < |Answers(T, stack, cmds)|
    ensures Answers(T, stack, cmds)[Checks(cmds, k)] ==>
              exists val: Valuation :: LiveTrue(T, val, stack, cmds, k) && PropEval(T, val, cmds[i].f)
  {
    hide Answers, Closes, Level, PropEval, WfTerms, AllTrue;
    AnswerMeaning(T, stack, cmds, k);
    AssertedUntilPopped(|stack|, cmds, i, k);
  }

  // ----- whole runs -----

  method RunOne(s: MainSolver, c: Command, ghost T0: seq<Pterm>) returns (answer: seq<bool>)
    requires s.Valid() && WfTerms(T0) && T0 <= s.cnf.logic.terms
    requires s.Stack() != [] && StackOk(T0, s.Stack()) && (Asserts(c) ==> UserFormula(T0, c.f))
    modifies s, s.cnf, s.cnf.logic, s.cnf.tmap, s.cnf.solver
    ensures s.Valid() && old(s.cnf.logic.terms) <= s.cnf.logic.terms
    ensures s.Stack() == Apply(old(s.Stack()), c)
    ensures answer == if c.DoCheck? then [StackSatisfiable(T0, old(s.Stack()))] else []
  {
    hide UserFormula, StackSatisfiable, WfTerms, ProperTerm, UserFormulas, MainSolver.ValidOver;
    ghost var stack := s.Stack();
    answer := [];
    match c
    case DoPush =>
      s.Push();
    case DoPop =>
      var _ := s.Pop();
    case DoAssert(f) =>
      UserGrows(T0, s.cnf.logic.terms, f);
      var _ := s.InsertFormula(f);
    case DoPushAssert(f) =>
      UserGrows(T0, s.cnf.logic.terms, f);
      var _ := s.PushFormula(f);
    case DoCheck =>
      var res := s.Check();
      SatisfiablePrefix(T0, s.cnf.logic.terms, stack);
      answer := [res == STrue];
  }

  lemma UserGrows(T: seq<Pterm>, T': seq<Pterm>, f: PTRef)
    requires WfTerms(T) && WfTerms(T') && T <= T' && UserFormula(T, f)
    ensures UserFormula(T', f) && f < |T'| && HasSortBool(T', f)
  {
    UserFormulasPrefix(T, T', [f]);
    assert UserFormula(T', [f][0]);
  }

  /** Whatever sequence of pushes, pops, assertions and checks is run, there is one answer for
      every check, and it says whether the formulas of the frames still open hold together. */
  method Run(s: MainSolver, cmds: seq<Command>) returns (answers: seq<bool>)
    requires s.Valid() && CommandsOk(s.cnf.logic.terms, cmds)
    modifies s, s.cnf, s.cnf.logic, s.cnf.tmap, s.cnf.solver
    ensures s.Valid() && old(s.cnf.logic.terms) <= s.cnf.logic.terms
    ensures old(s.Stack()) != [] && answers == Answers(old(s.cnf.logic.terms), old(s.Stack()), cmds)
    ensures |answers| == Checks(cmds, |cmds|)
    ensures forall k: nat | k < |cmds| && cmds[k].DoCheck? ::
              Checks(cmds, k) < |answers|
              && (answers[Checks(cmds, k)] <==> LiveSatisfiable(old(s.cnf.logic.terms), old(s.Stack()), cmds, k))
  {
    hide UserFormula, StackSatisfiable, WfTerms, ProperTerm, Apply, Answers, UserFormulas, MainSolver.ValidOver, LiveSatisfiable, Level;
    ghost var T0, stack0 := s.cnf.logic.terms, s.Stack();
    s.StackIsOk();
    answers := [];
    assert cmds[0..] == cmds;
    for i := 0 to |cmds|
      invariant s.Valid() && T0 <= s.cnf.logic.terms
      invariant s.Stack() != [] && StackOk(T0, s.Stack())
      invariant CommandsOk(T0, cmds[i..])
      invariant answers + Answers(T0, s.Stack(), cmds[i..]) == Answers(T0, stack0, cmds)
    {
      AnswersStep(T0, s.Stack(), cmds, i);
      var answer := RunOne(s, cmds[i], T0);
      answers := answers + answer;
    }
    NoMoreAnswers(T0, s.Stack(), cmds);
    AnswerCount(T0, stack0, cmds);
    forall k: nat | k < |cmds| && cmds[k].DoCheck?
      ensures Checks(cmds, k) < |answers| && (answers[Checks(cmds, k)] <==> LiveSatisfiable(T0, stack0, cmds, k))
    {
      AnswerMeaning(T0, stack0, cmds, k);
    }
  }
}

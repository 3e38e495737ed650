/** Models of a simplified formula can be completed to solve the substitutions made on the way. */
module SolvedModels {
  import opened Terms
  import opened Semantics
  import opened LogicStore
  import opened SubstLoops
  import opened Substitution
  import opened SubstitutionClosure

  /** No term is stored twice. */
  predicate HashConsed(T: seq<Pterm>) {
    forall r: PTRef, s: PTRef | r < |T| && s < |T| && T[r] == T[s] :: r == s
  }

  /** The interpretation with every enabled key given the value of its target. */
  ghost function Assign(T: seq<Pterm>, M: Interp, S: Substs): (M': Interp)
    requires WfTerms(T) && HashConsed(T) && SubstsOk(T, S)
  {
    SameSymbol(T, S);
    M + imap k | k in Enabled(S) :: (T[k].symb, []) := Eval(T, M, S[k].tr)
  }

  lemma SameSymbol(T: seq<Pterm>, S: Substs)
    requires WfTerms(T) && HashConsed(T) && SubstsOk(T, S)
    ensures forall k | k in Enabled(S) :: k < |T| && S[k].tr < |T|
    ensures forall k, r: PTRef | k in Enabled(S) && r < |T| && T[r].symb == T[k].symb :: r == k
  {
    forall k, r: PTRef | k in Enabled(S) && r < |T| && T[r].symb == T[k].symb ensures r == k {
      assert WfTerm(T, k) && WfTerm(T, r);
      assert T[r] == T[k];
    }
  }

  lemma AssignedSymbol(T: seq<Pterm>, M: Interp, S: Substs, s: Sym, vs: seq<Value>)
    requires WfTerms(T) && HashConsed(T) && SubstsOk(T, S)
    requires vs == [] ==> forall k | k in Enabled(S) :: k < |T| && T[k].symb != s
    ensures App(Assign(T, M, S), s, vs) == App(M, s, vs)
  {
    hide Eval;
    SameSymbol(T, S);
  }

  /** Terms without enabled keys keep their value. */
  lemma {:induction false} AssignKeeps(T: seq<Pterm>, M: Interp, S: Substs, r: PTRef)
    requires WfTerms(T) && HashConsed(T) && SubstsOk(T, S) && r < |T| && forall k | k in Enabled(S) :: !Occurs(T, r, k)
    ensures Eval(T, Assign(T, M, S), r) == Eval(T, M, r)
    decreases r
  {
    hide Eval, Assign, EvalSym;
    var M' := Assign(T, M, S);
    assert WfTerm(T, r);
    var args := T[r].args;
    forall i | 0 <= i < |args| ensures Eval(T, M', args[i]) == Eval(T, M, args[i]) {
      forall k | k in Enabled(S) ensures !Occurs(T, args[i], k) {
        ArgTouches(T, S, r, i);
      }
      AssignKeeps(T, M, S, args[i]);
    }
    EvalDef(T, M, r);
    EvalDef(T, M', r);
    assert EvalSeq(T, M', args) == EvalSeq(T, M, args);
    SameSymbol(T, S);
    forall k | k in Enabled(S) ensures T[k].symb != T[r].symb {
      BelowSelf(T, r);
      assert k != r;
    }
    AssignedSymbol(T, M, S, T[r].symb, EvalSeq(T, M, args));
    SymbolKeeps(M, M', T[r].symb, EvalSeq(T, M, args));
  }

  lemma SymbolKeeps(M: Interp, M': Interp, s: Sym, vs: seq<Value>)
    requires ArityOk(Pterm(s, seq(|vs|, i => 0))) && App(M', s, vs) == App(M, s, vs)
    ensures EvalSym(M', s, vs) == EvalSym(M, s, vs)
  {
  }

  /** The completed interpretation solves a map whose targets hold no enabled keys. */
  lemma AssignSolves(T: seq<Pterm>, M: Interp, S: Substs)
    requires WfTerms(T) && HashConsed(T) && SubstsOk(T, S) && SortsOk(T, S) && Idempotent(T, S)
    ensures Solves(T, Assign(T, M, S), S)
  {
    hide Occurs;
    var M' := Assign(T, M, S);
    forall k | k in S && S[k].sgn ensures Eval(T, M', k) == Eval(T, M', S[k].tr) {
      forall v | v in Enabled(S) ensures !Occurs(T, S[k].tr, v) {
        assert !DependsOn(T, S, k, v);
      }
      AssignKeeps(T, M, S, S[k].tr);
      KeyAssigned(T, M, S, k);
    }
  }

  lemma KeyAssigned(T: seq<Pterm>, M: Interp, S: Substs, k: PTRef)
    requires WfTerms(T) && HashConsed(T) && SubstsOk(T, S) && SortsOk(T, S) && k in Enabled(S)
    ensures Eval(T, Assign(T, M, S), k) == Eval(T, M, S[k].tr)
  {
    hide Eval, Assign;
    AssignedAt(T, M, S, k);
    VarValue(T, Assign(T, M, S), k);
  }

  lemma AssignedAt(T: seq<Pterm>, M: Interp, S: Substs, k: PTRef)
    requires WfTerms(T) && HashConsed(T) && SubstsOk(T, S) && k in Enabled(S)
    ensures k < |T| && S[k].tr < |T| && (T[k].symb, []) in Assign(T, M, S)
    ensures Assign(T, M, S)[(T[k].symb, [])] == Eval(T, M, S[k].tr)
  {
    hide Eval;
    SameSymbol(T, S);
  }

  lemma VarValue(T: seq<Pterm>, M: Interp, v: PTRef)
    requires WfTerms(T) && v < |T| && IsVarSym(T[v].symb)
    ensures Eval(T, M, v) == App(M, T[v].symb, [])
  {
    assert WfTerm(T, v);
    EvalDef(T, M, v);
    assert EvalSeq(T, M, []) == [];
  }

  /** Solutions of maps that do not mention the keys are kept. */
  lemma AssignKeepsSolution(T: seq<Pterm>, M: Interp, S: Substs, R: Substs)
    requires WfTerms(T) && HashConsed(T) && SubstsOk(T, S) && SubstsOk(T, R) && Unmentioned(T, S, R) && Solves(T, M, R)
    ensures Solves(T, Assign(T, M, S), R)
  {
    hide Occurs, Assign;
    forall k | k in R && R[k].sgn ensures Eval(T, Assign(T, M, S), k) == Eval(T, Assign(T, M, S), R[k].tr) {
      forall v | v in Enabled(S) ensures !Occurs(T, k, v) && !Occurs(T, R[k].tr, v) {
        assert !DependsOn(T, R, k, v) && v !in Enabled(R);
        OnlyItself(T, k, v);
      }
      AssignKeeps(T, M, S, k);
      AssignKeeps(T, M, S, R[k].tr);
    }
  }

  lemma OnlyItself(T: seq<Pterm>, k: PTRef, v: PTRef)
    requires WfTerms(T) && k < |T| && IsVarSym(T[k].symb)
    ensures Occurs(T, k, v) ==> v == k
  {
    assert WfTerm(T, k);
  }

  /** The enabled entries of R do not mention the enabled keys of S. */
  ghost predicate Unmentioned(T: seq<Pterm>, S: Substs, R: Substs)
    requires WfTerms(T) && SubstsOk(T, S) && SubstsOk(T, R)
  {
    forall v | v in Enabled(S) :: v !in Enabled(R) && forall k: PTRef :: !DependsOn(T, R, k, v)
  }

  ghost predicate AllSolved(T: seq<Pterm>, M: Interp, found: seq<Substs>)
    requires WfTerms(T) && forall i | 0 <= i < |found| :: SubstsOk(T, found[i])
  {
    forall i | 0 <= i < |found| :: Solves(T, M, found[i])
  }

  ghost predicate KeysGone(T: seq<Pterm>, root: PTRef, S: Substs)
    requires WfTerms(T) && root < |T|
  {
    forall v | v in Enabled(S) :: !Occurs(T, root, v)
  }

  /** Later substitutions and the final root do not mention the keys of earlier ones. */
  ghost predicate Eliminated(T: seq<Pterm>, root: PTRef, found: seq<Substs>)
    requires WfTerms(T) && root < |T|
  {
    && (forall i | 0 <= i < |found| :: SubstsOk(T, found[i]) && SortsOk(T, found[i]) && Idempotent(T, found[i]))
    && (forall i | 0 <= i < |found| :: KeysGone(T, root, found[i]))
    && (forall i, j | 0 <= i < j < |found| :: Unmentioned(T, found[i], found[j]))
  }

  /** Gives the eliminated variables their values, from the last substitutions to the first. */
  lemma {:induction false} Complete(T: seq<Pterm>, root: PTRef, found: seq<Substs>, M: Interp, n: nat) returns (M': Interp)
    requires WfTerms(T) && HashConsed(T) && root < |T| && Eliminated(T, root, found) && n <= |found|
    ensures Eval(T, M', root) == Eval(T, M, root)
    ensures forall i | |found| - n <= i < |found| :: Solves(T, M', found[i])
  {
    hide Solves, Idempotent, SubstsOk, SortsOk, Unmentioned, Assign;
    M' := M;
    if n > 0 {
      M' := Complete(T, root, found, M, n - 1);
      var S := found[|found| - n];
      assert KeysGone(T, root, S);
      AssignKeeps(T, M', S, root);
      AssignSolves(T, M', S);
      forall i | |found| - n < i < |found| ensures Solves(T, Assign(T, M', S), found[i]) {
        assert Unmentioned(T, S, found[i]);
        AssignKeepsSolution(T, M', S, found[i]);
      }
      M' := Assign(T, M', S);
    }
  }

  lemma EliminatedGrows(T: seq<Pterm>, T': seq<Pterm>, root: PTRef, found: seq<Substs>)
    requires WfTerms(T) && WfTerms(T') && T <= T' && root < |T| && Eliminated(T, root, found)
    ensures Eliminated(T', root, found)
  {
    hide Solves, SubstsOk, SortsOk, Occurs, DependsOn;
    forall i | 0 <= i < |found| ensures SubstsOk(T', found[i]) && SortsOk(T', found[i]) && Idempotent(T', found[i]) {
      StoreGrows(T, T', found[i]);
    }
    forall i | 0 <= i < |found| ensures KeysGone(T', root, found[i]) {
      assert KeysGone(T, root, found[i]);
      forall v: PTRef ensures Occurs(T', root, v) == Occurs(T, root, v) {
        OccursPrefix(T, T', root, v);
      }
    }
    forall i, j | 0 <= i < j < |found| ensures Unmentioned(T', found[i], found[j]) {
      assert Unmentioned(T, found[i], found[j]);
      StoreGrows(T, T', found[j]);
    }
  }

  /** After a round over variables of the root, all keys so far are gone. */
  lemma EliminatedMore(T: seq<Pterm>, root: PTRef, found: seq<Substs>, S: Substs, T': seq<Pterm>, newRoot: PTRef)
    requires WfTerms(T) && WfTerms(T') && T <= T' && root < |T| && Eliminated(T, root, found)
    requires SubstsOk(T, S) && SortsOk(T, S) && Idempotent(T, S) && Rewritten(T, S, T', root, newRoot)
    requires found != [] ==> forall k | k in S :: Occurs(T, root, k)
    requires found != [] ==> forall k: PTRef, v: PTRef | DependsOn(T, S, k, v) :: Occurs(T, root, v)
    ensures newRoot < |T'| && Eliminated(T', newRoot, found + [S])
  {
    hide Solves, SubstsOk, SortsOk, Occurs, DependsOn;
    var found' := found + [S];
    EliminatedGrows(T, T', root, found);
    StoreGrows(T, T', S);
    NewRootVars(T, S, T', root, newRoot);
    forall i | 0 <= i < |found'| ensures SubstsOk(T', found'[i]) && SortsOk(T', found'[i]) && Idempotent(T', found'[i]) && KeysGone(T', newRoot, found'[i]) {
      if i < |found| {
        assert found'[i] == found[i] && KeysGone(T, root, found[i]);
      }
    }
    forall i, j | 0 <= i < j < |found'| ensures Unmentioned(T', found'[i], found'[j]) {
      assert found'[i] == found[i] && KeysGone(T, root, found[i]);
      if j < |found| {
        assert Unmentioned(T', found[i], found[j]);
      }
    }
  }

  /** The new root has no enabled key, and otherwise variables of the root or of targets. */
  lemma NewRootVars(T: seq<Pterm>, S: Substs, T': seq<Pterm>, root: PTRef, newRoot: PTRef)
    requires WfTerms(T) && WfTerms(T') && T <= T' && root < |T|
    requires SubstsOk(T, S) && SortsOk(T, S) && Idempotent(T, S) && Rewritten(T, S, T', root, newRoot)
    ensures newRoot < |T'| && KeysGone(T', newRoot, S)
    ensures forall v: PTRef | Occurs(T', newRoot, v) :: Occurs(T, root, v) || exists k: PTRef :: DependsOn(T, S, k, v)
  {
    SubstitutedMeaning(T, S, T', root, newRoot);
    hide Occurs;
    forall v: PTRef | Occurs(T', newRoot, v) ensures Occurs(T, root, v) || exists k: PTRef :: DependsOn(T, S, k, v) {
      assert VarAfter(T, S, root, v);
    }
  }
}

/** Splitting a switch body into clauses keeps its meaning: selecting a label and running
    on from it is entering a clause and falling through the later ones. */
module SwitchClauses {
  import opened Options
  import opened Words
  import opened Ir
  import opened CTypes
  import opened Integers
  import opened Source
  import opened Statements
  import opened LowerStatements
  import opened Represent

  predicate Plain(stmts: seq<Stmt>) { forall stmt :: stmt in stmts ==> !IsLabel(stmt) }

  predicate PlainClauses(clauses: seq<Clause>) { forall k :: 0 <= k < |clauses| ==> Plain(clauses[k].body) }

  function LabelOf(clause: Clause): Stmt { if clause.tag.Some? then Case(clause.tag.value) else Default }

  /** The statements clauses stand for, labels included. */
  function Flat(clauses: seq<Clause>): seq<Stmt>
  {
    if clauses == [] then [] else [LabelOf(clauses[0])] + clauses[0].body + Flat(clauses[1..])
  }

  /** What runs when clause k is entered. */
  function From(clauses: seq<Clause>, k: nat): seq<Stmt>
    requires k < |clauses|
  {
    clauses[k].body + Flat(clauses[k + 1..])
  }

  /** Entering a clause passes its label. */
  lemma EntersBody(clauses: seq<Clause>)
    requires clauses != []
    ensures Flat(clauses) == [LabelOf(clauses[0])] + From(clauses, 0) && IsLabel(LabelOf(clauses[0]))
  {
    assert clauses[0 + 1..] == clauses[1..];
  }

  lemma {:induction false} FlatAppend(a: seq<Clause>, b: seq<Clause>)
    ensures Flat(a + b) == Flat(a) + Flat(b)
  {
    if a == [] {
      assert a + b == b;
    } else {
      assert (a + b)[1..] == a[1..] + b;
      FlatAppend(a[1..], b);
    }
  }

  /** The statements from the first label on. */
  function FromLabel(stmts: seq<Stmt>): seq<Stmt>
  {
    if stmts == [] || IsLabel(stmts[0]) then stmts else FromLabel(stmts[1..])
  }

  /** The clause being collected, if any, as statements. */
  function Started(current: Option<Option<Expr>>, body: seq<Stmt>): seq<Stmt>
  {
    if current.None? then [] else [LabelOf(Clause(current.value, body))] + body
  }

  lemma FinishFlat(current: Option<Option<Expr>>, body: seq<Stmt>, clauses: seq<Clause>)
    requires PlainClauses(clauses) && Plain(body)
    ensures Flat(FinishClause(current, body, clauses)) == Flat(clauses) + Started(current, body)
    ensures PlainClauses(FinishClause(current, body, clauses))
  {
    if current.Some? {
      var last := [Clause(current.value, body)];
      FlatAppend(clauses, last);
      assert last[1..] == [];
      assert Flat(last) == Started(current, body) + [];
    }
  }

  /** Collecting clauses drops what no label can reach and keeps everything else in order. */
  lemma {:induction false} CollectFlat(current: Option<Option<Expr>>, body: seq<Stmt>, clauses: seq<Clause>,
      stmts: seq<Stmt>)
    requires PlainClauses(clauses) && Plain(body)
    ensures Flat(CollectFrom(current, body, clauses, stmts)) ==
      Flat(clauses) + Started(current, body) + (if current.None? then FromLabel(stmts) else stmts)
    ensures PlainClauses(CollectFrom(current, body, clauses, stmts))
    decreases |stmts|
  {
    hide Flat, FinishClause, PlainClauses, Plain, Started;
    if stmts == [] {
      FinishFlat(current, body, clauses);
    } else if IsLabel(stmts[0]) {
      var tag := if stmts[0].Case? then Some(stmts[0].constant) else None;
      FinishFlat(current, body, clauses);
      PlainNone();
      CollectFlat(Some(tag), [], FinishClause(current, body, clauses), stmts[1..]);
      LabelStarts(stmts, tag);
      assert Flat(clauses) + Started(current, body) + Started(Some(tag), []) + stmts[1..] ==
          Flat(clauses) + Started(current, body) + (Started(Some(tag), []) + stmts[1..]);
    } else if current.None? {
      CollectFlat(current, body, clauses, stmts[1..]);
    } else {
      StartedMore(current, body, stmts);
      CollectFlat(current, body + [stmts[0]], clauses, stmts[1..]);
      assert Flat(clauses) + Started(current, body + [stmts[0]]) + stmts[1..] ==
          Flat(clauses) + (Started(current, body + [stmts[0]]) + stmts[1..]);
      assert Flat(clauses) + Started(current, body) + stmts == Flat(clauses) + (Started(current, body) + stmts);
    }
  }

  lemma PlainNone()
    ensures Plain([])
  {
  }

  lemma LabelStarts(stmts: seq<Stmt>, tag: Option<Expr>)
    requires stmts != [] && IsLabel(stmts[0]) && tag == (if stmts[0].Case? then Some(stmts[0].constant) else None)
    ensures Started(Some(tag), []) + stmts[1..] == stmts
  {
  }

  lemma StartedMore(current: Option<Option<Expr>>, body: seq<Stmt>, stmts: seq<Stmt>)
    requires current.Some? && Plain(body) && stmts != [] && !IsLabel(stmts[0])
    ensures Plain(body + [stmts[0]])
    ensures Started(current, body + [stmts[0]]) + stmts[1..] == Started(current, body) + stmts
  {
  }

  lemma ClausesFlat(stmts: seq<Stmt>)
    ensures Flat(CollectClauses(stmts)) == FromLabel(stmts) && PlainClauses(CollectClauses(stmts))
  {
    CollectFlat(None, [], [], stmts);
    assert [] + [] + FromLabel(stmts) == FromLabel(stmts);
  }

  // ---- Selecting a clause ------------------------------------------------------------------

  /** Selection passes over statements without labels. */
  lemma {:induction false} SelectPast(e: Scene, ty: CType, v: int, plain: seq<Stmt>, stmts: seq<Stmt>, s: Config)
    requires Plain(plain)
    ensures Select(e, ty, v, plain + stmts, s) == Select(e, ty, v, stmts, s)
    ensures AfterDefault(plain + stmts) == AfterDefault(stmts)
    decreases |plain|
  {
    hide Eval;
    if plain == [] {
      assert plain + stmts == stmts;
    } else {
      assert plain[0] in plain;
      assert (plain + stmts)[1..] == plain[1..] + stmts;
      SelectPast(e, ty, v, plain[1..], stmts, s);
    }
  }

  lemma {:induction false} SelectFromLabel(e: Scene, ty: CType, v: int, stmts: seq<Stmt>, s: Config)
    ensures Select(e, ty, v, stmts, s) == Select(e, ty, v, FromLabel(stmts), s)
    ensures AfterDefault(stmts) == AfterDefault(FromLabel(stmts))
    decreases |stmts|
  {
    if stmts != [] && !IsLabel(stmts[0]) { SelectFromLabel(e, ty, v, stmts[1..], s); }
  }

  /** The block of the first case equal to v, the labels evaluated in order. */
  ghost function Choose(e: Scene, ty: CType, v: int, cases: seq<(Expr, nat)>, s: Config): Option<Option<nat>>
  {
    if cases == [] then Some(None) else
    var r :- Eval(e.c, e.g, cases[0].0, s);
    if r.s != s || (e.g.reading.Guarded? && !LabelFits(ty, r.v)) then None
    else if Selects(e.g.reading, ty, r.v, v) then Some(Some(cases[0].1))
    else Choose(e, ty, v, cases[1..], s)
  }

  /** Block t belongs to the clause whose statements are rest. */
  predicate Entered(clauses: seq<Clause>, first: nat, t: nat, rest: seq<Stmt>)
  {
    first <= t < first + |clauses| && rest == From(clauses, t - first)
  }

  lemma EnteredLater(clauses: seq<Clause>, first: nat, t: nat, rest: seq<Stmt>)
    requires clauses != [] && Entered(clauses[1..], first + 1, t, rest)
    ensures Entered(clauses, first, t, rest)
  {
    assert clauses[1..][t - first - 1 + 1..] == clauses[t - first + 1..];
  }

  lemma FlatHead(clauses: seq<Clause>, first: nat)
    ensures clauses == [] ==> Flat(clauses) == [] && SwitchCases(clauses, first) == []
    ensures clauses != [] ==>
      && Flat(clauses) != [] && Flat(clauses)[0] == LabelOf(clauses[0]) &&
          Flat(clauses)[1..] == clauses[0].body + Flat(clauses[1..])
      && var cases := SwitchCases(clauses, first);
         if clauses[0].tag.None? then cases == SwitchCases(clauses[1..], first + 1)
         else
           cases != [] && cases[0] == (clauses[0].tag.value, first) &&
           cases[1..] == SwitchCases(clauses[1..], first + 1)
  {
  }

  lemma ChosenHere(clauses: seq<Clause>, first: nat)
    requires clauses != []
    ensures Entered(clauses, first, first, clauses[0].body + Flat(clauses[1..]))
  {
  }

  /** Comparing with the cases in turn finds the clause the switch selects. */
  lemma {:induction false} ChooseSelects(e: Scene, ty: CType, v: int, clauses: seq<Clause>, first: nat, s: Config)
    requires PlainClauses(clauses) && Select(e, ty, v, Flat(clauses), s).Some?
    ensures var chosen := Choose(e, ty, v, SwitchCases(clauses, first), s);
      var found := Select(e, ty, v, Flat(clauses), s).value;
      && chosen.Some? && (chosen.value.Some? <==> found.Some?)
      && (found.Some? ==> Entered(clauses, first, chosen.value.value, found.value))
    decreases |clauses|
  {
    hide Eval, LabelFits, Selects, From, Entered, Convert, Flat, SwitchCases, Plain, AfterDefault;
    FlatHead(clauses, first);
    if clauses != [] {
      var body, rest := clauses[0].body, clauses[1..];
      SelectPast(e, ty, v, body, Flat(rest), s);
      if clauses[0].tag.Some? { ChosenHere(clauses, first); }
      if Select(e, ty, v, Flat(rest), s).Some? {
        ChooseSelects(e, ty, v, rest, first + 1, s);
        var found := Select(e, ty, v, Flat(rest), s).value;
        if found.Some? {
          EnteredLater(clauses, first, Choose(e, ty, v, SwitchCases(rest, first + 1), s).value.value, found.value);
        }
      }
    }
  }

  /** The default target is the block of the first default clause, or the end. */
  lemma {:induction false} DefaultSelects(clauses: seq<Clause>, first: nat, end: nat)
    requires PlainClauses(clauses)
    ensures var found := AfterDefault(Flat(clauses));
      if found.Some? then Entered(clauses, first, DefaultTarget(end, clauses, first), found.value)
          else DefaultTarget(end, clauses, first) == end
    decreases |clauses|
  {
    if clauses != [] {
      var head, body, rest := LabelOf(clauses[0]), clauses[0].body, clauses[1..];
      var flat := Flat(clauses);
      assert flat[1..] == body + Flat(rest) && flat[0] == head;
      AfterDefaultPast(body, Flat(rest));
      DefaultSelects(rest, first + 1, end);
      var found := AfterDefault(Flat(rest));
      if found.Some? { EnteredLater(clauses, first, DefaultTarget(end, rest, first + 1), found.value); }
    }
  }

  lemma {:induction false} AfterDefaultPast(plain: seq<Stmt>, stmts: seq<Stmt>)
    requires Plain(plain)
    ensures AfterDefault(plain + stmts) == AfterDefault(stmts)
  {
    if plain == [] {
      assert plain + stmts == stmts;
    } else {
      assert plain[0] in plain;
      assert (plain + stmts)[1..] == plain[1..] + stmts;
      AfterDefaultPast(plain[1..], stmts);
    }
  }

  // ---- Case labels -------------------------------------------------------------------------

  /** The compiled comparison of labels, without a conversion, selects the case C selects
      for every value of the type exactly when the label fits it. */
  lemma LabelComparedExactly(ty: CType, x: int)
    requires Promoted(ty) && -M64 / 2 <= x < M64
    ensures LabelFits(ty, x) <==> forall v :: InRange(ty, v) ==>
        (Selects(AsCompiled, ty, x, v) <==> Selects(Standard, ty, x, v))
  {
    hide Convert, Selects, InRange, LabelFits;
    forall v | InRange(ty, v) && LabelFits(ty, x)
        ensures Selects(AsCompiled, ty, x, v) <==> Selects(Standard, ty, x, v) {
      FittingLabel(ty, x, v);
    }
    if !LabelFits(ty, x) { MisfitLabel(ty, x); }
  }

  lemma FittingLabel(ty: CType, x: int, v: int)
    requires Promoted(ty) && LabelFits(ty, x) && InRange(ty, v)
    ensures Selects(AsCompiled, ty, x, v) <==> Selects(Standard, ty, x, v)
  {
    hide Convert, InRange;
    ConvertedWord(ty, x);
    DistinctWords(ty, Convert(ty, x), v);
  }

  /** The conversion of a fitting label keeps its word. */
  lemma ConvertedWord(ty: CType, x: int)
    requires Promoted(ty) && LabelFits(ty, x)
    ensures Convert(ty, x) % M64 == x % M64
  {
    if SizeOf(ty) == 8 {
      ConvertCongruent(ty, x);
    } else if !InRange(ty, x) {
      hide Convert;
      ConvertCycle(ty, x);
      assert Convert(ty, x) == x - M64;
    }
  }

  /** Two values of a type differ by less than all words. */
  lemma DistinctWords(ty: CType, x: int, v: int)
    requires InRange(ty, x) && InRange(ty, v)
    ensures x % M64 == v % M64 <==> x == v
  {
    assert -M64 < x - v < M64;
  }

  lemma ConvertCycle(ty: CType, x: int)
    requires Promoted(ty)
    ensures Convert(ty, x) == Convert(ty, x - M64)
  {
    WordMultiple(ty, x, -1);
  }

  /** A label that does not fit is converted by C to a value its word is not. */
  lemma MisfitLabel(ty: CType, x: int)
    requires Promoted(ty) && -M64 / 2 <= x < M64 && !LabelFits(ty, x)
    ensures InRange(ty, Convert(ty, x)) && Selects(Standard, ty, x, Convert(ty, x)) &&
        !Selects(AsCompiled, ty, x, Convert(ty, x))
  {
  }
}

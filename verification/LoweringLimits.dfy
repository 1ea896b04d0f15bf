/** Where the lowering does not follow the structured semantics: a break or continue in the
    condition of a loop.  The passes before it give such a jump to the loop outside, whose
    body is the one on record; the generator has pushed the frame of the loop itself by
    then. */
module LoweringLimits {
  import opened ControlFlow
  import opened LoweringCorrect

  /** A condition that breaks with 7. */
  const Test := If(Lit(1), Break(Some(Lit(7))), Lit(0))

  lemma TestBreaks(o: Owner, ev: Primitives, w: World)
    ensures Eval(o, ev, Test, w, 0) == Broke(Some(7), w)
    ensures MayBreak(Test, true) && !JumpsAway(Test) && Checked(Test, true)
  {
    assert Eval(o, ev, Break(Some(Lit(7))), w, 0) == Broke(Some(7), w);
    assert !JumpsAway(Lit(0));
  }

  /** A loop with that condition, and a break with 9 after it, in another loop. */
  const Plain := While(Test, Lit(2), Lit(3))
  const PlainBody := [Plain, Break(Some(Lit(9)))]
  const Differs := While(Lit(1), Seq(PlainBody), Lit(4))

  lemma {:induction false} DiffersRuns(ev: Primitives, w: World)
    ensures Eval(Outside, ev, Differs, w, 0) == Normal(7, w)
    ensures Eval(Itself, ev, Differs, w, 0) == Normal(9, w)
  {
    TestBreaks(Outside, ev, w);
    assert EvalWhile(Outside, ev, Plain, None, w, 0) == Broke(Some(7), w);
    assert EvalSeq(Outside, ev, PlainBody, w, 0) == Broke(Some(7), w);
    assert Eval(Outside, ev, Seq(PlainBody), w, 0) == Broke(Some(7), w);
    assert EvalWhile(Outside, ev, Differs, None, w, 0) == Normal(7, w);
    TestBreaks(Itself, ev, w);
    assert !JumpsAway(Plain.body);
    assert EvalWhile(Itself, ev, Plain, None, w, 0) == Normal(7, w);
    assert Eval(Itself, ev, Break(Some(Lit(9))), w, 0) == Broke(Some(9), w);
    assert PlainBody[1..] == [Break(Some(Lit(9)))];
    assert EvalSeq(Itself, ev, PlainBody[1..], w, 0) == Broke(Some(9), w);
    assert EvalSeq(Itself, ev, PlainBody, w, 0) == Broke(Some(9), w);
    assert Eval(Itself, ev, Seq(PlainBody), w, 0) == Broke(Some(9), w);
    assert EvalWhile(Itself, ev, Differs, None, w, 0) == Normal(9, w);
  }

  lemma {:induction false} PlainChecked()
    ensures Checked(Plain, true) && !JumpsAway(Plain)
  {
    assert !JumpsAway(Lit(0)) && !JumpsAway(Lit(2));
  }

  lemma {:induction false} DiffersChecked()
    ensures Checked(Differs, false)
  {
    PlainChecked();
    assert !JumpsAway(Lit(9)) && Checked(Break(Some(Lit(9))), true);
    assert PlainBody[0] == Plain && PlainBody[1] == Break(Some(Lit(9))) && |PlainBody| == 2;
    hide JumpsAway;
    assert Checked(Seq(PlainBody), true);
  }

  lemma {:induction false} ConditionBreaks(c: Expr, b: Expr, els: Expr, e: Expr)
    requires MayBreak(c, true)
    ensures !ConditionsStay(While(Lit(1), Seq([While(c, b, els), e]), Lit(4)))
  {
    var es := [While(c, b, els), e];
    assert es[0] == While(c, b, els) && !ConditionsStay(es[0]);
    assert !ConditionsStay(Seq(es));
  }

  /** The program passes every check and evaluates to 7; its code returns 9. */
  lemma {:induction false} ConditionBreakDiffers(ev: Primitives, w: World)
    ensures Checked(Differs, false) && !ConditionsStay(Differs)
    ensures Evaluates(Outside, ev, Differs, w, 7, w) && Returns(Lower(Differs), ev, w, 9, w)
  {
    DiffersRuns(ev, w);
    DiffersChecked();
    LoweringIsExact(ev, Differs, w);
    hide Eval, Checked, ConditionsStay;
    assert Evaluates(Itself, ev, Differs, w, 9, w);
    TestBreaks(Outside, ev, w);
    ConditionBreaks(Test, Lit(2), Lit(3), PlainBody[1]);
  }

  /** A loop with that condition whose body and else clause jump away, in another loop. */
  const Away := While(Test, Continue, Continue)
  const Strays := While(Lit(1), Away, Lit(4))

  lemma {:induction false} StraysRuns(ev: Primitives, w: World)
    ensures Eval(Outside, ev, Strays, w, 0) == Normal(7, w)
    ensures Eval(Itself, ev, Strays, w, 0) == Lost
  {
    TestBreaks(Outside, ev, w);
    assert EvalWhile(Outside, ev, Away, None, w, 0) == Broke(Some(7), w);
    assert EvalWhile(Outside, ev, Strays, None, w, 0) == Normal(7, w);
    TestBreaks(Itself, ev, w);
    assert JumpsAway(Away);
    assert EvalWhile(Itself, ev, Away, None, w, 0) == Lost;
    assert EvalWhile(Itself, ev, Strays, None, w, 0) == Lost;
  }

  lemma {:induction false} AwayChecked(c: Expr)
    requires MayBreak(c, true) && !JumpsAway(c) && Checked(c, true)
    ensures var e := While(c, Continue, Continue); Checked(e, true) && !ValuesHavePlace(e)
  {
    assert JumpsAway(Continue) && !MayBreak(Continue, true) && Checked(Continue, true);
    assert JumpsAway(While(c, Continue, Continue));
  }

  lemma {:induction false} StraysChecked(ev: Primitives, w: World)
    ensures Checked(Strays, false) && !ValuesHavePlace(Strays)
  {
    hide Eval;
    TestBreaks(Outside, ev, w);
    AwayChecked(Test);
  }

  /** The program passes every check and evaluates to 7; its code runs into a block held to
      be unreachable. */
  lemma {:induction false} ConditionBreakStrays(ev: Primitives, w: World)
    ensures Checked(Strays, false) && !ValuesHavePlace(Strays)
    ensures Evaluates(Outside, ev, Strays, w, 7, w) && GetsStuck(Lower(Strays), ev, w)
  {
    StraysRuns(ev, w);
    StraysChecked(ev, w);
    LoweringIsExact(ev, Strays, w);
    hide Eval, Checked;
    assert GetsLost(Itself, ev, Strays, w);
  }
}

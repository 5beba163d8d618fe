/** The binding-guard gate around the insight provider: internal/insight/gate.go. */
module Gate {
  import opened Text

  datatype Insight = Insight(category: string, title: string, detail: string, explanation: string)

  datatype InsightResult = InsightResult(insights: seq<Insight>, disclaimer: string)

  /** The two rejections of the gate, and whatever a provider reports. */
  datatype Error = MissingExplanation | AdviceDetected | Provider(code: int)

  datatype Outcome = Ok(result: InsightResult) | Err(error: Error)

  const DISCLAIMER: string :=
    "Estas são considerações educacionais para a sua própria análise"
    + " — não são recomendações de compra ou venda nem aconselhamento financeiro."
    + " A decisão final é sempre sua."

  /** The user-facing fields, joined by line breaks. */
  function InsightText(i: Insight): string {
    i.category + "\n" + i.title + "\n" + i.detail + "\n" + i.explanation
  }

  /** Explained, and free of order signatures. The detector itself is a parameter. */
  ghost predicate Clean(i: Insight, containsOrder: string -> bool) {
    !Blank(i.explanation) && !containsOrder(InsightText(i))
  }

  ghost predicate AllClean(result: InsightResult, containsOrder: string -> bool) {
    result.disclaimer == DISCLAIMER && forall i :: 0 <= i < |result.insights| ==>
        Clean(result.insights[i], containsOrder)
  }

  /** What the gate lets through: the whole result with the fixed disclaimer, or an error. */
  ghost predicate Gated(inner: Outcome, containsOrder: string -> bool, outer: Outcome) {
    match inner
    case Err(e) => outer == Err(e)
    case Ok(r) =>
      if forall i :: 0 <= i < |r.insights| ==> Clean(r.insights[i], containsOrder)
      then outer == Ok(r.(disclaimer := DISCLAIMER))
      else exists i :: FirstViolation(r.insights, containsOrder, i) &&
                       outer == Err(if Blank(r.insights[i].explanation) then MissingExplanation else AdviceDetected)
  }

  ghost predicate FirstViolation(insights: seq<Insight>, containsOrder: string -> bool, i: int) {
    0 <= i < |insights| && !Clean(insights[i], containsOrder) && forall j :: 0 <= j < i ==>
        Clean(insights[j], containsOrder)
  }

  /** The provider's answer passes the gate, or the first violation rejects all of it. */
  method Generate(inner: Outcome, containsOrder: string -> bool) returns (outer: Outcome)
    ensures Gated(inner, containsOrder, outer)
    ensures inner.Err? ==> outer == inner
  {
    if inner.Err? {
      return inner;
    }
    var result := inner.result;
    for i := 0 to |result.insights|
      invariant forall j :: 0 <= j < i ==> Clean(result.insights[j], containsOrder)
    {
      var insight := result.insights[i];
      TrimBlank(insight.explanation);
      if TrimSpace(insight.explanation) == "" {
        assert FirstViolation(result.insights, containsOrder, i);
        return Err(MissingExplanation);
      }
      if containsOrder(InsightText(insight)) {
        assert FirstViolation(result.insights, containsOrder, i);
        return Err(AdviceDetected);
      }
    }
    return Ok(result.(disclaimer := DISCLAIMER));
  }

  /** The gate determines its answer, and nothing but a clean result gets through. */
  lemma GateIsClosed(inner: Outcome, containsOrder: string -> bool, a: Outcome, b: Outcome)
    requires Gated(inner, containsOrder, a) && Gated(inner, containsOrder, b)
    ensures a == b
    ensures a.Ok? <==> inner.Ok? && AllClean(inner.result.(disclaimer := DISCLAIMER), containsOrder)
    ensures a.Ok? ==> AllClean(a.result, containsOrder)
  {
    if inner.Ok? && a.Err? && b.Err? {
      var i :| FirstViolation(inner.result.insights, containsOrder, i) &&
        a == Err(if Blank(inner.result.insights[i].explanation) then MissingExplanation else AdviceDetected);
      var j :| FirstViolation(inner.result.insights, containsOrder, j) &&
        b == Err(if Blank(inner.result.insights[j].explanation) then MissingExplanation else AdviceDetected);
      assert i == j;
    }
  }

  // ---------------------------------------------------------------------------------------------
  // What the gate reads.

  /** A field of an insight that the user sees. */
  predicate Shown(i: Insight, field: string) {
    field == i.category || field == i.title || field == i.detail || field == i.explanation
  }

  lemma ShownIsRead(i: Insight, field: string) returns (before: string, after: string)
    requires Shown(i, field)
    ensures InsightText(i) == before + field + after
  {
    if field == i.category {
      before, after := "", "\n" + i.title + "\n" + i.detail + "\n" + i.explanation;
    } else if field == i.title {
      before, after := i.category + "\n", "\n" + i.detail + "\n" + i.explanation;
    } else if field == i.detail {
      before, after := i.category + "\n" + i.title + "\n", "\n" + i.explanation;
    } else {
      before, after := i.category + "\n" + i.title + "\n" + i.detail + "\n", "";
    }
  }

  /** An order in any field of any insight rejects the result, whatever stands before and behind the field. */
  lemma OrdersAreRejected(r: InsightResult, containsOrder: string -> bool, outer: Outcome, k: nat, field: string)
    requires Gated(Ok(r), containsOrder, outer) && k < |r.insights| && Shown(r.insights[k], field)
    requires forall before, after :: containsOrder(before + field + after)
    ensures outer.Err?
  {
    var before, after := ShownIsRead(r.insights[k], field);
    assert containsOrder(before + field + after);
    assert !Clean(r.insights[k], containsOrder);
  }

  /**
   One insight: a blank explanation is missing, whatever the detector says; otherwise the detector reads the four
   fields, each on its own line, and when it is silent only the disclaimer changes.
   */
  lemma OneInsight(category: string, title: string, detail: string, explanation: string, disclaimer: string,
      containsOrder: string -> bool, outer: Outcome)
    requires Gated(Ok(InsightResult([Insight(category, title, detail, explanation)], disclaimer)), containsOrder, outer)
    ensures outer
         == if Blank(explanation) then Err(MissingExplanation)
            else if containsOrder(category + "\n" + title + "\n" + detail + "\n" + explanation) then Err(AdviceDetected)
            else Ok(InsightResult([Insight(category, title, detail, explanation)], DISCLAIMER))
  {
    var i := Insight(category, title, detail, explanation);
    assert [i][0] == i;
    if Clean(i, containsOrder) {
      assert forall j :: 0 <= j < |[i]| ==> Clean([i][j], containsOrder);
    } else {
      assert !Clean([i][0], containsOrder);
    }
  }

  /** The first rejected insight decides: the rest counts only when those in front of it pass. */
  lemma FirstRejectionCounts(front: seq<Insight>, rest: seq<Insight>, containsOrder: string -> bool, a: Outcome,
                             b: Outcome, both: Outcome)
    requires Gated(Ok(InsightResult(front, "")), containsOrder, a)
    requires Gated(Ok(InsightResult(rest, "")), containsOrder, b)
    requires Gated(Ok(InsightResult(front + rest, "")), containsOrder, both)
    ensures both == if a.Err? then a else if b.Err? then b else Ok(InsightResult(front + rest, DISCLAIMER))
  {
    var joined := front + rest;
    assert forall j :: 0 <= j < |front| ==> joined[j] == front[j];
    assert forall j :: 0 <= j < |rest| ==> joined[|front| + j] == rest[j];
    if a.Err? {
      var i :| FirstViolation(front, containsOrder, i);
      assert FirstViolation(joined, containsOrder, i);
    } else if b.Err? {
      var i :| FirstViolation(rest, containsOrder, i);
      assert FirstViolation(joined, containsOrder, |front| + i);
    }
  }
}

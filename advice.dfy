/**
 * generate_advice of metrics/evaluation.py: fixed rules compare entries of the result
 * dict with thresholds, in a fixed order, each adding one message; when none fires, a
 * single positive message is returned.
 */
module Advice {
  import opened Common
  import opened Thresholds

  /** The advice messages, in the order the rules are tried. */
  datatype Message =
    | WeakCoherence | Unbalanced | FlowDiffers | AddReference | LowCoverage | Redundant | LowFinal
    | WellStructured
  {
    function Text(): string
    {
      match this
      case WeakCoherence => "Темы в разделах слабо связаны — стоит пересмотреть формулировки или сгруппировать иначе."
      case Unbalanced => "Темы распределены неравномерно — попробуйте сбалансировать количество тем в разделах."
      case FlowDiffers => "Порядок тем отличается от эталона — стоит пересмотреть структуру."
      case AddReference => "Добавьте эталон, чтобы рассчитать покрытие."
      case LowCoverage => "Покрытие тем недостаточное — часть ключевых тем из эталона отсутствует."
      case Redundant => "Обнаружены повторяющиеся или очень схожие темы — стоит их объединить или удалить."
      case LowFinal => "Итоговый балл ниже рекомендуемого — обратите внимание на слабые метрики."
      case WellStructured => "Курс хорошо структурирован — \U{1F44D} Темы логичны и сбалансированы!"
    }

    /** The position of the rule that emits the message; the two coverage messages share one. */
    function Rank(): nat
    {
      match this
      case WeakCoherence => 0
      case Unbalanced => 1
      case FlowDiffers => 2
      case AddReference => 3
      case LowCoverage => 3
      case Redundant => 4
      case LowFinal => 5
      case WellStructured => 6
    }
  }

  /** A result dict: metric name to value, None standing for a null value. */
  type Fields = map<string, Option<real>>

  /** `result.get(key, default)`: a present key gives its value, even a null one. */
  function Get(result: Fields, key: string, default: Option<real>): Option<real>
  {
    if key in result then result[key] else default
  }

  /**
   * `result.get(key, default) < thresholds[key]` (or `>` when above is set): a missing
   * threshold raises KeyError and a null on either side raises TypeError.
   */
  function Compare(result: Fields, thresholds: Table, key: string, default: real, above: bool): (r: Result<bool, Fault>)
    ensures key !in thresholds ==> r == Failure(MissingThreshold(key))
    ensures r.Failure? <==>
      key !in thresholds || thresholds[key].None? || Get(result, key, Some(default)).None?
    ensures r.Failure? && key in thresholds ==> r == Failure(Incomparable(key))
    ensures key !in result && key in thresholds && thresholds[key].Some? ==>
      r == Success(if above then default > thresholds[key].value else default < thresholds[key].value)
  {
    if key !in thresholds then Failure(MissingThreshold(key))
    else
      var v := Get(result, key, Some(default));
      var t := thresholds[key];
      if v.None? || t.None? then Failure(Incomparable(key))
      else Success(if above then v.value > t.value else v.value < t.value)
  }

  /** One rule: its message when the comparison holds, nothing when it does not. */
  function Rule(result: Fields, thresholds: Table, key: string, default: real, above: bool, message: Message)
    : Result<seq<Message>, Fault>
  {
    var fires :- Compare(result, thresholds, key, default, above);
    Success(if fires then [message] else [])
  }

  /** The messages of two groups of rules tried one after the other; the first error wins. */
  function Then(first: Result<seq<Message>, Fault>, second: Result<seq<Message>, Fault>): (r: Result<seq<Message>, Fault>)
    ensures r.Success? <==> first.Success? && second.Success?
    ensures r.Success? ==> r.value == first.value + second.value
    ensures first.Failure? ==> r == first
  {
    if first.Failure? then first
    else if second.Failure? then second
    else Success(first.value + second.value)
  }

  /** The coverage rule: the "add a reference" message for a missing or null coverage, else a comparison. */
  function CoverageRule(result: Fields, thresholds: Table): (r: Result<seq<Message>, Fault>)
    ensures Get(result, "sequence_coverage", None).None? ==> r.Success?
    ensures r.Success? ==> |r.value| <= 1
    ensures r.Success? ==> (AddReference in r.value <==> Get(result, "sequence_coverage", None).None?)
  {
    if Get(result, "sequence_coverage", None).None? then Success([AddReference])
    else Rule(result, thresholds, "sequence_coverage", 1.0, false, LowCoverage)
  }

  /** The messages of the rules that fire, in order. */
  function Fired(result: Fields, thresholds: Table, hasReference: bool): Result<seq<Message>, Fault>
  {
    var structural := Then(
      Rule(result, thresholds, "semantic_coherence", 1.0, false, WeakCoherence),
      Rule(result, thresholds, "structural_balance", 1.0, false, Unbalanced));
    var gated :=
      if hasReference then Then(Rule(result, thresholds, "topic_flow", 1.0, false, FlowDiffers), CoverageRule(result, thresholds))
      else Success([]);
    Then(Then(Then(structural, gated),
      Rule(result, thresholds, "redundancy", 0.0, true, Redundant)),
      Rule(result, thresholds, "final_score", 1.0, false, LowFinal))
  }

  /** generate_advice as a function: the fired messages, or the positive message alone. */
  function AdviceFor(result: Fields, thresholds: Table, hasReference: bool): Result<seq<Message>, Fault>
  {
    var fired :- Fired(result, thresholds, hasReference);
    Success(if |fired| == 0 then [WellStructured] else fired)
  }

  /** One `if ...: a.append(message)` step of generate_advice. */
  method CheckRule(a: seq<Message>, result: Fields, thresholds: Table, key: string, default: real, above: bool,
                   message: Message) returns (r: Result<seq<Message>, Fault>)
    ensures r == Then(Success(a), Rule(result, thresholds, key, default, above, message))
  {
    var fires :- Compare(result, thresholds, key, default, above);
    var b := a;
    if fires {
      b := b + [message];
    }
    assert b == a + (if fires then [message] else []);
    return Success(b);
  }

  /** The `if has_reference:` block of generate_advice: the topic-flow rule, then the coverage rule. */
  method CheckReferenceRules(a: seq<Message>, result: Fields, thresholds: Table) returns (r: Result<seq<Message>, Fault>)
    ensures r == Then(Success(a), Then(Rule(result, thresholds, "topic_flow", 1.0, false, FlowDiffers), CoverageRule(result, thresholds)))
  {
    var b :- CheckRule(a, result, thresholds, "topic_flow", 1.0, false, FlowDiffers);
    ghost var flow := Rule(result, thresholds, "topic_flow", 1.0, false, FlowDiffers).value;
    if Get(result, "sequence_coverage", None).None? {
      b := b + [AddReference];
    } else {
      b :- CheckRule(b, result, thresholds, "sequence_coverage", 1.0, false, LowCoverage);
    }
    assert b == a + (flow + CoverageRule(result, thresholds).value);
    return Success(b);
  }

  /** generate_advice: appends one message per rule that fires, or the fallback when none does. */
  method GenerateAdvice(result: Fields, thresholds: Table, hasReference: bool) returns (r: Result<seq<Message>, Fault>)
    ensures r == AdviceFor(result, thresholds, hasReference)
  {
    var a: seq<Message> := [];
    a :- CheckRule(a, result, thresholds, "semantic_coherence", 1.0, false, WeakCoherence);
    ghost var done := Rule(result, thresholds, "semantic_coherence", 1.0, false, WeakCoherence);
    assert done.value == a;
    a :- CheckRule(a, result, thresholds, "structural_balance", 1.0, false, Unbalanced);
    done := Then(done, Rule(result, thresholds, "structural_balance", 1.0, false, Unbalanced));
    assert done.value == a;
    if hasReference {
      a :- CheckReferenceRules(a, result, thresholds);
      done := Then(done, Then(Rule(result, thresholds, "topic_flow", 1.0, false, FlowDiffers), CoverageRule(result, thresholds)));
    } else {
      done := Then(done, Success([]));
    }
    assert done.value == a;
    a :- CheckRule(a, result, thresholds, "redundancy", 0.0, true, Redundant);
    done := Then(done, Rule(result, thresholds, "redundancy", 0.0, true, Redundant));
    assert done.value == a;
    a :- CheckRule(a, result, thresholds, "final_score", 1.0, false, LowFinal);
    done := Then(done, Rule(result, thresholds, "final_score", 1.0, false, LowFinal));
    assert done == Fired(result, thresholds, hasReference);
    assert done.value == a;
    if |a| == 0 {
      a := [WellStructured];
    }
    return Success(a);
  }

  // ---------------------------------------------------------------------------
  // Properties
  // ---------------------------------------------------------------------------

  /** Messages appear in rule order, each at most once. */
  ghost predicate InRuleOrder(a: seq<Message>)
  {
    forall i, j :: 0 <= i < j < |a| ==> a[i].Rank() < a[j].Rank()
  }

  /** On success, the messages are in rule order and come from rules lo to hi. */
  ghost predicate Ranked(r: Result<seq<Message>, Fault>, lo: nat, hi: nat)
  {
    r.Success? ==> InRuleOrder(r.value) && forall k :: 0 <= k < |r.value| ==> lo <= r.value[k].Rank() <= hi
  }

  lemma RuleRanked(result: Fields, thresholds: Table, key: string, default: real, above: bool, message: Message)
    ensures Ranked(Rule(result, thresholds, key, default, above, message), message.Rank(), message.Rank())
  {
  }

  /** Two groups of rules from disjoint, increasing rank ranges stay in rule order. */
  lemma ThenRanked(x: Result<seq<Message>, Fault>, y: Result<seq<Message>, Fault>, lo: nat, mid: nat, hi: nat)
    requires lo <= mid < hi && Ranked(x, lo, mid) && Ranked(y, mid + 1, hi)
    ensures Ranked(Then(x, y), lo, hi)
  {
    if x.Success? && y.Success? {
      var a := x.value + y.value;
      forall k | 0 <= k < |a|
        ensures lo <= a[k].Rank() <= hi
      {
        if k < |x.value| {
          assert a[k] == x.value[k];
        } else {
          assert a[k] == y.value[k - |x.value|];
        }
      }
      forall i, j | 0 <= i < j < |a|
        ensures a[i].Rank() < a[j].Rank()
      {
        if j < |x.value| {
          assert a[i] == x.value[i] && a[j] == x.value[j];
        } else if i >= |x.value| {
          assert a[i] == y.value[i - |x.value|] && a[j] == y.value[j - |x.value|];
        } else {
          assert a[i] == x.value[i] && a[j] == y.value[j - |x.value|];
        }
      }
    }
  }

  lemma FiredRanked(result: Fields, thresholds: Table, hasReference: bool)
    ensures Ranked(Fired(result, thresholds, hasReference), 0, 5)
  {
    RuleRanked(result, thresholds, "semantic_coherence", 1.0, false, WeakCoherence);
    RuleRanked(result, thresholds, "structural_balance", 1.0, false, Unbalanced);
    ThenRanked(
      Rule(result, thresholds, "semantic_coherence", 1.0, false, WeakCoherence),
      Rule(result, thresholds, "structural_balance", 1.0, false, Unbalanced), 0, 0, 1);
    var structural := Then(
      Rule(result, thresholds, "semantic_coherence", 1.0, false, WeakCoherence),
      Rule(result, thresholds, "structural_balance", 1.0, false, Unbalanced));
    var gated: Result<seq<Message>, Fault> := Success([]);
    if hasReference {
      RuleRanked(result, thresholds, "topic_flow", 1.0, false, FlowDiffers);
      RuleRanked(result, thresholds, "sequence_coverage", 1.0, false, LowCoverage);
      ThenRanked(Rule(result, thresholds, "topic_flow", 1.0, false, FlowDiffers), CoverageRule(result, thresholds), 2, 2, 3);
      gated := Then(Rule(result, thresholds, "topic_flow", 1.0, false, FlowDiffers), CoverageRule(result, thresholds));
    }
    assert Ranked(gated, 2, 3);
    ThenRanked(structural, gated, 0, 1, 3);
    RuleRanked(result, thresholds, "redundancy", 0.0, true, Redundant);
    ThenRanked(Then(structural, gated), Rule(result, thresholds, "redundancy", 0.0, true, Redundant), 0, 3, 4);
    RuleRanked(result, thresholds, "final_score", 1.0, false, LowFinal);
    ThenRanked(Then(Then(structural, gated), Rule(result, thresholds, "redundancy", 0.0, true, Redundant)),
      Rule(result, thresholds, "final_score", 1.0, false, LowFinal), 0, 4, 5);
  }

  /**
   * generate_advice always returns a non-empty list whose messages follow the rule
   * order, each at most once; the positive message appears only on its own.
   */
  lemma AdviceShape(result: Fields, thresholds: Table, hasReference: bool)
    requires AdviceFor(result, thresholds, hasReference).Success?
    ensures var a := AdviceFor(result, thresholds, hasReference).value;
      && |a| > 0 && InRuleOrder(a)
      && (WellStructured in a <==> a == [WellStructured])
  {
    FiredRanked(result, thresholds, hasReference);
    var fired := Fired(result, thresholds, hasReference).value;
    assert WellStructured !in fired;
  }

  /** The keys the rules read from the result dict through a comparison. */
  const RuleKeys: set<string> := {"semantic_coherence", "structural_balance", "topic_flow", "sequence_coverage", "redundancy", "final_score"}

  /** A rule emits its message exactly when its comparison holds. */
  lemma RuleFires(result: Fields, thresholds: Table, key: string, default: real, above: bool, message: Message, m: Message)
    requires Rule(result, thresholds, key, default, above, message).Success?
    ensures m in Rule(result, thresholds, key, default, above, message).value <==>
      m == message && Compare(result, thresholds, key, default, above) == Success(true)
  {
  }

  /** The messages of the rules that fire: each exactly when its rule's condition holds. */
  lemma FiredMembers(result: Fields, thresholds: Table, hasReference: bool, m: Message)
    requires Fired(result, thresholds, hasReference).Success?
    ensures m in Fired(result, thresholds, hasReference).value <==>
      || (m == WeakCoherence && Compare(result, thresholds, "semantic_coherence", 1.0, false) == Success(true))
      || (m == Unbalanced && Compare(result, thresholds, "structural_balance", 1.0, false) == Success(true))
      || (m == FlowDiffers && hasReference && Compare(result, thresholds, "topic_flow", 1.0, false) == Success(true))
      || (m == AddReference && hasReference && Get(result, "sequence_coverage", None).None?)
      || (m == LowCoverage && hasReference && Get(result, "sequence_coverage", None).Some?
          && Compare(result, thresholds, "sequence_coverage", 1.0, false) == Success(true))
      || (m == Redundant && Compare(result, thresholds, "redundancy", 0.0, true) == Success(true))
      || (m == LowFinal && Compare(result, thresholds, "final_score", 1.0, false) == Success(true))
  {
    RuleFires(result, thresholds, "semantic_coherence", 1.0, false, WeakCoherence, m);
    RuleFires(result, thresholds, "structural_balance", 1.0, false, Unbalanced, m);
    if hasReference {
      RuleFires(result, thresholds, "topic_flow", 1.0, false, FlowDiffers, m);
      if Get(result, "sequence_coverage", None).Some? {
        RuleFires(result, thresholds, "sequence_coverage", 1.0, false, LowCoverage, m);
      }
    }
    RuleFires(result, thresholds, "redundancy", 0.0, true, Redundant, m);
    RuleFires(result, thresholds, "final_score", 1.0, false, LowFinal, m);
  }

  /**
   * Which messages appear: each rule's message exactly when its comparison holds (the
   * topic-flow and coverage messages only with a reference, the "add a reference"
   * message when sequence_coverage is missing or null), and the positive message
   * exactly when no rule fires.
   */
  lemma AdviceRules(result: Fields, thresholds: Table, hasReference: bool, m: Message)
    requires AdviceFor(result, thresholds, hasReference).Success?
    ensures m != WellStructured ==>
      (m in AdviceFor(result, thresholds, hasReference).value <==> m in Fired(result, thresholds, hasReference).value)
    ensures WellStructured in AdviceFor(result, thresholds, hasReference).value <==>
      |Fired(result, thresholds, hasReference).value| == 0
  {
    AdviceShape(result, thresholds, hasReference);
  }

  /** Every default key has a non-null threshold. */
  ghost predicate Usable(thresholds: Table)
  {
    forall k :: k in DefaultKeys ==> k in thresholds && thresholds[k].Some?
  }

  /** The default thresholds are usable, whatever overrides that keep them non-null add. */
  lemma DefaultsUsable()
    ensures Usable(ResolveThresholds(None))
  {
    DefaultsShape();
  }

  /**
   * With every threshold present and non-null, and no compared key null in the result
   * (a null sequence_coverage is allowed: it selects the "add a reference" message),
   * generate_advice raises nothing.
   */
  lemma AdviceTotal(result: Fields, thresholds: Table, hasReference: bool)
    requires Usable(thresholds)
    requires forall k :: k in RuleKeys && k != "sequence_coverage" && k in result ==> result[k].Some?
    ensures AdviceFor(result, thresholds, hasReference).Success?
  {
    assert "semantic_coherence" in DefaultKeys && "structural_balance" in DefaultKeys && "topic_flow" in DefaultKeys;
    assert "sequence_coverage" in DefaultKeys && "redundancy" in DefaultKeys && "final_score" in DefaultKeys;
    assert "semantic_coherence" in RuleKeys && "structural_balance" in RuleKeys && "topic_flow" in RuleKeys;
    assert "redundancy" in RuleKeys && "final_score" in RuleKeys;
  }

  /**
   * Keys missing from the result take the defaults 1 (0 for redundancy), which fire no
   * rule against thresholds in [0, 1]; only the "add a reference" message can appear.
   */
  lemma MissingKeysGiveNoAdvice(thresholds: Table, hasReference: bool)
    requires Usable(thresholds)
    requires forall k :: k in DefaultKeys ==> 0.0 <= thresholds[k].value <= 1.0
    ensures AdviceFor(map[], thresholds, hasReference) == Success(if hasReference then [AddReference] else [WellStructured])
  {
    assert "semantic_coherence" in DefaultKeys && "structural_balance" in DefaultKeys && "topic_flow" in DefaultKeys;
    assert "redundancy" in DefaultKeys && "final_score" in DefaultKeys;
    var none: seq<Message> := [];
    assert Rule(map[], thresholds, "semantic_coherence", 1.0, false, WeakCoherence) == Success(none);
    assert Rule(map[], thresholds, "structural_balance", 1.0, false, Unbalanced) == Success(none);
    assert Rule(map[], thresholds, "topic_flow", 1.0, false, FlowDiffers) == Success(none);
    assert Rule(map[], thresholds, "redundancy", 0.0, true, Redundant) == Success(none);
    assert Rule(map[], thresholds, "final_score", 1.0, false, LowFinal) == Success(none);
    if hasReference {
      assert Fired(map[], thresholds, hasReference).value == [AddReference];
    } else {
      assert Fired(map[], thresholds, hasReference).value == [];
    }
  }
}

/**
 * An independent statement of the diagnosis rule chain as a priority table
 * of rules, each a set of required symptoms and the condition it names,
 * and the properties of the chain proved against that table: priority
 * order, totality, monotonicity and when a health tip is shown.
 */
module Rules {
  import opened Wrappers
  import opened App

  /** A rule fires when every symptom it needs is selected. */
  datatype Rule = Rule(needs: set<string>, condition: string)

  predicate Fires(rule: Rule, selected: set<string>)
  {
    rule.needs <= selected
  }

  /** The rules of the "Diagnose Me" handler, highest priority first. */
  const Chain: seq<Rule> := [
    Rule({"Fever", "Cough"}, Covid19),
    Rule({"Fatigue", "Body Ache"}, Flu),
    Rule({"Runny Nose"}, CommonCold),
    Rule({"Sore Throat"}, Allergy),
    Rule({"Diarrhea"}, StomachAche)
  ]

  /** The position of the first rule that fires, or |rules| if none does. */
  function FirstFiring(rules: seq<Rule>, selected: set<string>): (i: nat)
    ensures i <= |rules|
    ensures i < |rules| ==> Fires(rules[i], selected)
    ensures forall j :: 0 <= j < i ==> !Fires(rules[j], selected)
  {
    if rules == [] then 0
    else if Fires(rules[0], selected) then 0
    else 1 + FirstFiring(rules[1..], selected)
  }

  /** The condition at a position of the chain; past its end, the fallback. */
  function ConditionAt(i: nat): (c: string)
  {
    if i < |Chain| then Chain[i].condition else Undiagnosed
  }

  /** The reference: refuse an empty selection, else the first firing rule. */
  function Evaluate(selected: set<string>): (r: Outcome)
  {
    if selected == {} then EmptySelection
    else Diagnosis(ConditionAt(FirstFiring(Chain, selected)))
  }

  /** The priority of a condition: its position in the chain (the fallback is last). */
  function Rank(condition: string): (k: nat)
    ensures k <= |Chain|
    ensures k < |Chain| ==> Chain[k].condition == condition
    ensures k == |Chain| ==> forall j :: 0 <= j < |Chain| ==> Chain[j].condition != condition
  {
    IndexOf(Chain, condition)
  }

  function IndexOf(rules: seq<Rule>, condition: string): (k: nat)
    ensures k <= |rules|
    ensures k < |rules| ==> rules[k].condition == condition
    ensures forall j :: 0 <= j < k ==> rules[j].condition != condition
  {
    if rules == [] then 0
    else if rules[0].condition == condition then 0
    else 1 + IndexOf(rules[1..], condition)
  }

  // ---------------------------------------------------------------------
  // The if/elif chain is the rule table
  // ---------------------------------------------------------------------

  /** Each rule of the table fires by the membership test of its branch. */
  lemma ChainTests(selected: set<string>)
    ensures Fires(Chain[0], selected) <==> "Fever" in selected && "Cough" in selected
    ensures Fires(Chain[1], selected) <==> "Fatigue" in selected && "Body Ache" in selected
    ensures Fires(Chain[2], selected) <==> "Runny Nose" in selected
    ensures Fires(Chain[3], selected) <==> "Sore Throat" in selected
    ensures Fires(Chain[4], selected) <==> "Diarrhea" in selected
  {
  }

  /** Diagnose agrees with the table on every catalogue selection. */
  lemma DiagnoseFollowsChain(selected: set<string>)
    requires InCatalog(selected)
    ensures Diagnose(selected) == Evaluate(selected)
  {
    ChainTests(selected);
    var i := FirstFiring(Chain, selected);
    if i == 0 {
    } else if i == 1 {
      assert !Fires(Chain[0], selected);
    } else if i == 2 {
      assert !Fires(Chain[0], selected) && !Fires(Chain[1], selected);
    } else if i == 3 {
      assert !Fires(Chain[0], selected) && !Fires(Chain[1], selected);
      assert !Fires(Chain[2], selected);
    } else if i == 4 {
      assert !Fires(Chain[0], selected) && !Fires(Chain[1], selected);
      assert !Fires(Chain[2], selected) && !Fires(Chain[3], selected);
    } else {
      assert forall j :: 0 <= j < |Chain| ==> !Fires(Chain[j], selected);
    }
  }

  /**
   * Strict priority: rule i decides the diagnosis exactly when it fires
   * and every earlier rule does not.
   */
  lemma PriorityOrder(selected: set<string>, i: nat)
    requires InCatalog(selected)
    requires i < |Chain|
    ensures Diagnose(selected) == Diagnosis(Chain[i].condition) <==>
      Fires(Chain[i], selected) && forall j :: 0 <= j < i ==> !Fires(Chain[j], selected)
  {
    DiagnoseFollowsChain(selected);
    var k := FirstFiring(Chain, selected);
    if Diagnose(selected) == Diagnosis(Chain[i].condition) {
      assert ConditionAt(k) == Chain[i].condition;
      assert k == i;
    }
  }

  /** "Flu" exactly when Fatigue and Body Ache are selected and the COVID-19 rule does not fire. */
  lemma FluExactly(selected: set<string>)
    requires InCatalog(selected)
    ensures Diagnose(selected) == Diagnosis(Flu) <==>
      "Fatigue" in selected && "Body Ache" in selected
      && !("Fever" in selected && "Cough" in selected)
  {
  }

  /** "Unable to Diagnose" exactly when a non-empty selection fires no rule. */
  lemma UndiagnosedExactly(selected: set<string>)
    requires InCatalog(selected) && selected != {}
    ensures Diagnose(selected) == Diagnosis(Undiagnosed) <==>
      forall j :: 0 <= j < |Chain| ==> !Fires(Chain[j], selected)
  {
    DiagnoseFollowsChain(selected);
  }

  /** Single symptoms that no rule uses on their own. */
  lemma UndiagnosedExamples()
    ensures Diagnose({"Fever"}) == Diagnosis(Undiagnosed)
    ensures Diagnose({"Loss of Smell"}) == Diagnosis(Undiagnosed)
    ensures Diagnose({"Fever", "Cough", "Runny Nose", "Diarrhea"}) == Diagnosis(Covid19)
  {
  }

  /** "Loss of Smell" is offered but takes part in no rule. */
  lemma LossOfSmellIgnored(selected: set<string>)
    requires InCatalog(selected) && selected != {}
    ensures Diagnose(selected + {"Loss of Smell"}) == Diagnose(selected)
  {
  }

  // ---------------------------------------------------------------------
  // Monotonicity
  // ---------------------------------------------------------------------

  /**
   * More symptoms can only make an earlier rule the first to fire: the rule
   * that fired for s still fires for t, so FirstFiring's contract bounds t's.
   */
  lemma FirstFiringMonotone(rules: seq<Rule>, s: set<string>, t: set<string>)
    requires s <= t
    ensures FirstFiring(rules, t) <= FirstFiring(rules, s)
  {
  }

  /**
   * Adding symptoms to a selection that has a real diagnosis keeps a real
   * diagnosis, of equal or higher priority.
   */
  lemma DiagnoseMonotone(s: set<string>, t: set<string>)
    requires InCatalog(s) && InCatalog(t) && s <= t && s != {}
    requires Diagnose(s) != Diagnosis(Undiagnosed)
    ensures Diagnose(t) != Diagnosis(Undiagnosed)
    ensures Rank(Diagnose(t).result) <= Rank(Diagnose(s).result)
  {
    DiagnoseFollowsChain(s);
    DiagnoseFollowsChain(t);
    FirstFiringMonotone(Chain, s, t);
    var i, k := FirstFiring(Chain, s), FirstFiring(Chain, t);
    assert Rank(ConditionAt(i)) == i;
    assert Rank(ConditionAt(k)) == k;
  }

  // ---------------------------------------------------------------------
  // Health tips
  // ---------------------------------------------------------------------

  /** Every condition of the chain, and nothing else, has a health tip. */
  lemma TipsCoverChain()
    ensures forall c :: c in HealthTips <==> c in Labels && c != Undiagnosed
    ensures forall j :: 0 <= j < |Chain| ==> Chain[j].condition in HealthTips
  {
  }

  /** A tip is shown exactly for a real diagnosis, and it is that condition's tip. */
  lemma TipShownExactlyForRealDiagnosis(lang: Language, selected: set<string>)
    requires InCatalog(selected) && selected != {}
    ensures Respond(lang, selected).info.Some? <==> Diagnose(selected).result != Undiagnosed
    ensures TipFor(Diagnose(selected).result) ==
      if Diagnose(selected).result == Undiagnosed then None
      else Some(HealthTips[Diagnose(selected).result])
  {
  }

  /** An empty selection shows only the warning: no diagnosis and no tip. */
  lemma EmptySelectionWarns(lang: Language)
    ensures Diagnose({}) == EmptySelection
    ensures Respond(lang, {}) == Warning("Please select at least one symptom.")
  {
  }

  // ---------------------------------------------------------------------
  // Translation
  // ---------------------------------------------------------------------

  /**
   * A property of the dictionary's data: a Hindi text is never itself a
   * key, so translating twice changes nothing.
   */
  lemma TranslateIdempotent(lang: Language, key: string)
    ensures Translate(lang, Translate(lang, key)) == Translate(lang, key)
  {
  }
}

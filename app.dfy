/**
 * The decision logic of the MEDBOT Ultra-X page, lifted out of its UI
 * callbacks: the constant tables, the language-dependent `translate`
 * lookup, the rule chain behind the "Diagnose Me" button and what that
 * button puts on the screen.
 */
module App {
  import opened Wrappers

  // ---------------------------------------------------------------------
  // Constant tables
  // ---------------------------------------------------------------------

  /** The symptoms the multiselect offers, in display order. */
  const SymptomList: seq<string> :=
    ["Fever", "Cough", "Fatigue", "Body Ache", "Sore Throat",
     "Loss of Smell", "Runny Nose", "Diarrhea"]

  /** A selection the multiselect can produce: only catalogue symptoms. */
  predicate InCatalog(selected: set<string>)
  {
    forall s :: s in selected ==> s in SymptomList
  }

  // The labels the rule chain can produce.
  const Covid19: string := "COVID-19"
  const Flu: string := "Flu"
  const CommonCold: string := "Common Cold"
  const Allergy: string := "Allergy"
  const StomachAche: string := "Stomach Ache"
  const Undiagnosed: string := "Unable to Diagnose"

  const Labels: set<string> :=
    {Covid19, Flu, CommonCold, Allergy, StomachAche, Undiagnosed}

  /** One piece of advice per diagnosable condition. */
  const HealthTips: map<string, string> := map[
    Covid19 := "Isolate yourself and get tested. Wear a mask and consult a doctor.",
    Flu := "Rest, drink plenty of fluids, and consider paracetamol for fever.",
    CommonCold := "Use steam inhalation and warm fluids. Avoid cold drinks.",
    Allergy := "Avoid allergens. You may take an antihistamine after medical consultation.",
    StomachAche := "Avoid oily food, stay hydrated, and rest. Seek help if pain increases."
  ]

  /** Hindi renderings of the page's UI strings. */
  const HindiDict: map<string, string> := map[
    "Select symptoms" := "लक्षण चुनें",
    "Diagnose Me" := "जांच करें",
    "Your diagnosis is" := "आपका निदान है",
    "Health Tip" := "स्वास्थ्य सुझाव",
    "Feedback" := "प्रतिक्रिया",
    "Submit" := "जमा करें",
    "Language" := "भाषा"
  ]

  /** The two choices of the language radio button. */
  datatype Language = English | Hindi

  // ---------------------------------------------------------------------
  // Lookups
  // ---------------------------------------------------------------------

  /**
   * `translate`: in Hindi a known UI string becomes its Hindi text and any
   * other string is kept; in English every string is kept.
   */
  function Translate(lang: Language, key: string): (r: string)
    ensures lang == English ==> r == key
    ensures lang == Hindi && key in HindiDict ==> r == HindiDict[key]
    ensures key !in HindiDict ==> r == key
  {
    if lang == Hindi then (if key in HindiDict then HindiDict[key] else key)
    else key
  }

  /** The health tip shown for a diagnosis label, if it has one. */
  function TipFor(result: string): (r: Option<string>)
    ensures r.Some? <==> result in HealthTips
    ensures r.Some? ==> r.value == HealthTips[result]
  {
    if result in HealthTips then Some(HealthTips[result]) else None
  }

  // ---------------------------------------------------------------------
  // The diagnosis rule chain
  // ---------------------------------------------------------------------

  /** What pressing "Diagnose Me" decides. */
  datatype Outcome = EmptySelection | Diagnosis(result: string)

  /**
   * The fixed-priority chain: an empty selection is refused; otherwise the
   * first rule whose symptoms are all selected names the condition, and
   * "Unable to Diagnose" is the fallback.
   */
  function Diagnose(selected: set<string>): (r: Outcome)
    requires InCatalog(selected)
    ensures r == EmptySelection <==> selected == {}
    ensures r.Diagnosis? ==> r.result in Labels
    ensures r.Diagnosis? ==>
      (r.result == Covid19 <==> "Fever" in selected && "Cough" in selected)
  {
    if |selected| == 0 then EmptySelection
    else if "Fever" in selected && "Cough" in selected then Diagnosis(Covid19)
    else if "Fatigue" in selected && "Body Ache" in selected then Diagnosis(Flu)
    else if "Runny Nose" in selected then Diagnosis(CommonCold)
    else if "Sore Throat" in selected then Diagnosis(Allergy)
    else if "Diarrhea" in selected then Diagnosis(StomachAche)
    else Diagnosis(Undiagnosed)
  }

  // ---------------------------------------------------------------------
  // What the button puts on the screen
  // ---------------------------------------------------------------------

  const EmptyWarning: string := "Please select at least one symptom."

  /** A warning box, or a success line followed by an optional info box. */
  datatype Screen = Warning(text: string) | Report(success: string, info: Option<string>)

  /** The messages shown after "Diagnose Me" is pressed. */
  function Respond(lang: Language, selected: set<string>): (r: Screen)
    requires InCatalog(selected)
    ensures r.Warning? <==> selected == {}
    ensures r.Warning? ==> r.text == EmptyWarning
    ensures r.Report? ==>
      r.success == Translate(lang, "Your diagnosis is") + ": " + Diagnose(selected).result
    ensures r.Report? ==> (r.info.Some? <==> Diagnose(selected).result in HealthTips)
    ensures r.Report? && r.info.Some? ==>
      r.info.value == "💡 " + Translate(lang, "Health Tip") + ": "
                      + HealthTips[Diagnose(selected).result]
  {
    match Diagnose(selected)
    case EmptySelection => Warning(EmptyWarning)
    case Diagnosis(result) =>
      var info :=
        match TipFor(result)
        case Some(tip) => Some("💡 " + Translate(lang, "Health Tip") + ": " + tip)
        case None => None;
      Report(Translate(lang, "Your diagnosis is") + ": " + result, info)
  }
}

# MEDBOT Ultra-X diagnosis core

MEDBOT Ultra-X is a single-page symptom checker. The user picks symptoms from a fixed
list, presses "Diagnose Me", and gets one condition label plus, for most labels, a
health tip. The page can show its UI strings in English or Hindi. This project models
the decision logic behind that page as pure Dafny functions and proves its properties:

- `App` (app.dfy) holds the constant tables: the symptom catalogue, the health tips and
  the Hindi dictionary. It also holds the `translate` lookup, the fixed-priority
  `if/elif` rule chain (`Diagnose`), and what the button puts on screen (`Respond`).
- `Rules` (rules.dfy) restates the chain independently, as a priority table of rules.
  Each rule has a set of required symptoms and the condition it names. `FirstFiring`
  picks the first rule whose symptoms are all selected. The module proves that
  `Diagnose` agrees with this table. It then proves priority order, totality,
  monotonicity under added symptoms, and when a tip is shown.
- `Wrappers` (wrappers.dfy) holds the `Option` type of a dictionary lookup.

Modelling choices:

- The multiselect returns a list of distinct options. It is modelled as a set, because
  the handler only tests emptiness and membership.
- The multiselect offers only `symptom_list`, so the selection is restricted to that
  catalogue by a precondition (`InCatalog`). It is not an error path.
- The language radio offers only "English" and "Hindi", so the language is a two-value
  datatype. Any language other than Hindi leaves every string unchanged.

The handler picks exactly one label by rule priority, and the multiselect never yields a symptom
outside `symptom_list`.

## Model

| member | source | states |
|---|---|---|
| App.Translate | app.py:49 | English keeps every string. Hindi gives a dictionary key its Hindi text. A string outside the dictionary is always kept unchanged. |
| App.TipFor | app.py:77-78 | A tip exists exactly when the label is a key of the tip table, and the tip is that key's value. |
| App.Diagnose | app.py:57-73 | The result is `EmptySelection` exactly when nothing is selected. Otherwise it is one of the six labels. It is "COVID-19" exactly when Fever and Cough are both selected, whatever else is. |
| App.Respond | app.py:57-78 | A warning, with the fixed "select at least one symptom" text, appears exactly for an empty selection. Otherwise the success line is the translated prefix plus the diagnosis. The info box appears exactly when the diagnosis has a tip, and it carries that tip. |
| Rules.FirstFiring | app.py:62-73 | Returns the position of a rule that fires, with no earlier rule firing, or the table length when no rule fires. |
| Rules.Rank | app.py:62-73 | Gives a condition's priority: its position in the chain, or the chain length for a label no rule produces. |
| Rules.ChainTests | app.py:62-71 | Each rule in the table fires exactly when the membership test of its own `if`/`elif` branch holds. |
| Rules.DiagnoseFollowsChain | app.py:62-73 | On every catalogue selection, the `if/elif` chain equals "refuse empty, else the condition of the first firing rule, else Unable to Diagnose". |
| Rules.PriorityOrder | app.py:62-71 | On every catalogue selection, rule i decides the diagnosis if and only if rule i fires and every earlier rule does not fire. |
| Rules.FluExactly | app.py:64-65 | The result is "Flu" if and only if Fatigue and Body Ache are selected and Fever and Cough are not both selected. |
| Rules.UndiagnosedExactly | app.py:62-73 | A non-empty selection gets "Unable to Diagnose" if and only if no rule fires. |
| Rules.UndiagnosedExamples | app.py:62-73 | {Fever} alone and {Loss of Smell} alone are undiagnosed. Fever+Cough wins over later rules that also fire. |
| Rules.LossOfSmellIgnored | app.py:52-73 | Adding "Loss of Smell" to a non-empty selection never changes the diagnosis, because no rule tests it. |
| Rules.FirstFiringMonotone | app.py:62-71 | A superset of symptoms never moves the first firing rule later in the table. |
| Rules.DiagnoseMonotone | app.py:62-71 | Adding symptoms to a selection with a real diagnosis keeps a real diagnosis, of equal or higher priority. |
| Rules.TipsCoverChain | app.py:22-28 | The tip table's keys are exactly the labels other than "Unable to Diagnose", and every rule's condition is among them. |
| Rules.TipShownExactlyForRealDiagnosis | app.py:77-78 | For a non-empty selection, a tip is shown if and only if the diagnosis is not "Unable to Diagnose". The tip is that condition's entry. |
| Rules.EmptySelectionWarns | app.py:58-59 | An empty selection yields `EmptySelection` and only the warning, with no diagnosis and no tip. |
| Rules.TranslateIdempotent | app.py:31-39 | A property of the dictionary's data, not a promise of the code: no Hindi text is itself a key, so translating an already translated string changes nothing. |

## Left out

- Downloading `diabetes.csv` and fitting the `DecisionTreeClassifier` (app.py:13-19): this is network I/O and an opaque library call, and the fitted model is never used for a prediction.
- All Streamlit rendering: page config, title, markdown, radio, multiselect, button, success/warning/info boxes, text area and caption. The model keeps only the values these calls branch on or display. Whether the buttons are pressed is an input event, so `Respond` models the handler once "Diagnose Me" is pressed.
- The dummy chart (app.py:80-91): it uses random numbers and is presentation only.
- The feedback form (app.py:93-97): the entered text is discarded, and the only output is a fixed thank-you message.
- The unused imports `train_test_split` and `webbrowser`.
- The order and duplicates of the multiselect's list: the handler never looks at either.

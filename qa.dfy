/**
 * The component QA schema (v0.6.0): the QA mode and its string codec, with
 * the legacy alias "upgrade" accepted on input and never produced, and the
 * collection of every translation key a QA spec refers to.
 */
module Qa {
  import opened Wrappers
  import opened Primitives

  datatype QaMode = Default | Setup | Update | Remove

  /** Every string `FromStr` accepts: the four canonical names and the legacy alias. */
  const AcceptedModeNames: set<string> := {"default", "setup", "update", "upgrade", "remove"}

  const InvalidModeMessage: string := "invalid QA mode"

  /** The canonical name of a mode. It always reads back as the same mode. */
  function AsStr(m: QaMode): (s: string)
    ensures FromStr(s) == Ok(m)
    ensures s in AcceptedModeNames && s != "upgrade"
  {
    match m
    case Default => "default"
    case Setup => "setup"
    case Update => "update"
    case Remove => "remove"
  }

  /** Parses a mode name; "upgrade" is read as `Update`. */
  function FromStr(s: string): (r: Result<QaMode, string>)
    ensures r.Ok? <==> s in AcceptedModeNames
    ensures r.Err? ==> r.error == InvalidModeMessage
    ensures s == "upgrade" ==> r == Ok(Update)
  {
    match s
    case "default" => Ok(Default)
    case "setup" => Ok(Setup)
    case "update" => Ok(Update)
    case "upgrade" => Ok(Update)
    case "remove" => Ok(Remove)
    case _ => Err(InvalidModeMessage)
  }

  /**
   * `Display`: writes the canonical name to a formatter whose output so far
   * is `written`. What it appends reads back as the mode.
   */
  function Fmt(m: QaMode, written: string): (out: string)
    ensures |out| >= |written| && out[..|written|] == written
    ensures out[|written|..] == AsStr(m) && out[|written|..] != "upgrade"
    ensures FromStr(out[|written|..]) == Ok(m)
  {
    written + AsStr(m)
  }

  /** Reading a name back gives the canonical name, except for the alias. */
  lemma FromStrThenAsStr(s: string)
    requires FromStr(s).Ok?
    ensures AsStr(FromStr(s).value) == s || (s == "upgrade" && AsStr(FromStr(s).value) == "update")
  {
  }

  /** Distinct modes have distinct names, so decoding is a left inverse of encoding. */
  lemma AsStrInjective(a: QaMode, b: QaMode)
    ensures AsStr(a) == AsStr(b) ==> a == b
  {
    assert FromStr(AsStr(a)) == Ok(a) && FromStr(AsStr(b)) == Ok(b);
  }

  /**
   * The alias makes the codec non-bijective: two names decode to `Update`,
   * and the one `Display` produces is "update".
   */
  lemma LegacyAliasIsNeverEmitted(m: QaMode)
    ensures FromStr("upgrade") == FromStr("update") == Ok(Update)
    ensures AsStr(m) != "upgrade"
    ensures Fmt(Update, "") == "update"
  {
  }

  // ---------------------------------------------------------------------
  // Specs, questions and their translation keys
  // ---------------------------------------------------------------------

  datatype ChoiceOption = ChoiceOption(value: string, labelText: I18nText)

  datatype QuestionKind = Text | Choice(options: seq<ChoiceOption>) | Number | Bool

  datatype Question = Question(
    id: string,
    labelText: I18nText,
    help: Option<I18nText>,
    error: Option<I18nText>,
    kind: QuestionKind,
    required: bool,
    defaultValue: Option<CborValue>)

  datatype ComponentQaSpec = ComponentQaSpec(
    mode: QaMode,
    title: I18nText,
    description: Option<I18nText>,
    questions: seq<Question>,
    defaults: map<string, CborValue>)

  function KeyOf(t: Option<I18nText>): set<string> {
    if t.Some? then {t.value.key} else {}
  }

  function OptionLabelKeys(options: seq<ChoiceOption>): set<string> {
    set i | 0 <= i < |options| :: options[i].labelText.key
  }

  /** The keys one question refers to: its label, help and error, and the labels of its choices. */
  function QuestionKeys(q: Question): set<string> {
    {q.labelText.key} + KeyOf(q.help) + KeyOf(q.error) +
    (if q.kind.Choice? then OptionLabelKeys(q.kind.options) else {})
  }

  function QuestionsKeys(qs: seq<Question>): set<string> {
    set i, k | 0 <= i < |qs| && k in QuestionKeys(qs[i]) :: k
  }

  /** The keys a spec refers to: title, description, and those of every question. */
  function SpecKeys(spec: ComponentQaSpec): set<string> {
    {spec.title.key} + KeyOf(spec.description) + QuestionsKeys(spec.questions)
  }

  /** `Question::collect_i18n_keys`: inserts this question's keys into `keys`. */
  method CollectI18nKeys(q: Question, keys: set<string>) returns (out: set<string>)
    ensures out == keys + QuestionKeys(q)
  {
    out := keys + {q.labelText.key};
    if q.help.Some? {
      out := out + {q.help.value.key};
    }
    if q.error.Some? {
      out := out + {q.error.value.key};
    }
    if q.kind.Choice? {
      ghost var before := out;
      var options := q.kind.options;
      for j := 0 to |options|
        invariant out == before + OptionLabelKeys(options[..j])
      {
        assert OptionLabelKeys(options[..j + 1]) == OptionLabelKeys(options[..j]) + {options[j].labelText.key};
        out := out + {options[j].labelText.key};
      }
      assert options[..|options|] == options;
    }
  }

  /** `ComponentQaSpec::i18n_keys`: every key the spec refers to, and nothing else. */
  method I18nKeys(spec: ComponentQaSpec) returns (keys: set<string>)
    ensures keys == SpecKeys(spec)
  {
    keys := {spec.title.key};
    if spec.description.Some? {
      keys := keys + {spec.description.value.key};
    }
    ghost var base := keys;
    var questions := spec.questions;
    for i := 0 to |questions|
      invariant keys == base + QuestionsKeys(questions[..i])
    {
      assert QuestionsKeys(questions[..i + 1]) == QuestionsKeys(questions[..i]) + QuestionKeys(questions[i]) by {
        var pre := questions[..i + 1];
        forall k | k in QuestionsKeys(pre) ensures k in QuestionsKeys(questions[..i]) + QuestionKeys(questions[i]) {
          var j :| 0 <= j < |pre| && k in QuestionKeys(pre[j]);
          if j < i {
            assert pre[j] == questions[..i][j];
          }
        }
        forall k | k in QuestionKeys(questions[i]) ensures k in QuestionsKeys(pre) {
          assert pre[i] == questions[i];
        }
        forall k | k in QuestionsKeys(questions[..i]) ensures k in QuestionsKeys(pre) {
          var j :| 0 <= j < i && k in QuestionKeys(questions[..i][j]);
          assert pre[j] == questions[..i][j];
        }
      }
      keys := CollectI18nKeys(questions[i], keys);
    }
    assert questions[..|questions|] == questions;
  }

  /** A key is collected exactly when the title, the description or some question names it. */
  lemma SpecKeysMembership(spec: ComponentQaSpec, k: string)
    ensures k in SpecKeys(spec) <==>
      || k == spec.title.key
      || (spec.description.Some? && k == spec.description.value.key)
      || exists i :: 0 <= i < |spec.questions| && k in QuestionKeys(spec.questions[i])
  {
  }

  /** A question contributes exactly its label, help, error and choice-label keys. */
  lemma QuestionKeysMembership(q: Question, k: string)
    ensures k in QuestionKeys(q) <==>
      || k == q.labelText.key
      || (q.help.Some? && k == q.help.value.key)
      || (q.error.Some? && k == q.error.value.key)
      || (q.kind.Choice? && exists i :: 0 <= i < |q.kind.options| && k == q.kind.options[i].labelText.key)
  {
  }

  /** A spec with a title, a description and no questions refers to exactly those two keys. */
  lemma TitleAndDescriptionOnly(mode: QaMode, title: string, description: string, defaults: map<string, CborValue>)
    ensures SpecKeys(ComponentQaSpec(mode, I18nText(title), Some(I18nText(description)), [], defaults)) ==
      {title, description}
  {
    assert QuestionsKeys([]) == {};
  }
}

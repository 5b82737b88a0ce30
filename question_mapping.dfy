/**
 * The editor-to-database mapping of POST /api/questions
 * (app/api/questions/route.js): each question of the editor's payload
 * becomes the columns of a QuestionItem row. Multiple-choice options get
 * letter keys by position, true/false/not-given items get their three
 * fixed choices, and the answers of short-answer and matching items are
 * read out of the bracket blanks of their template.
 *
 * The partner of the mapping is the draft view of src/utils/questionTransformers.js:
 * reading a saved row back gives the editor the question it sent.
 */
module QuestionMapping {
  import opened Common
  import opened Blanks
  import opened Grading
  import opened Content
  import opened Transformers

  /**
   * q.type of an editor question: the four types the route maps, and Other
   * for any other value (or none), which the route gives no type columns.
   */
  datatype FeType = Mcq | Tfng | Short | Matching | Other

  /**
   * A question of the editor's payload. Absent or empty strings are "",
   * a non-array options is [], and correctIndex is None unless it is a
   * number.
   */
  datatype FeQuestion = FeQuestion(
    id: Option<nat>,
    qtype: FeType,
    text: string,
    shortTemplate: string,
    matchingTemplate: string,
    options: seq<string>,
    correctIndex: Option<int>,
    correctTFNG: string)

  /** a || b || c || '' */
  function FirstNonEmpty(a: string, b: string, c: string): (r: string)
    ensures r == "" <==> a == "" && b == "" && c == ""
    ensures r == a || r == b || r == c
  {
    if a != "" then a else if b != "" then b else c
  }

  // ---------------------------------------------------------------------
  // Multiple-choice keys
  // ---------------------------------------------------------------------

  /** The key of the option at position idx: A..D, then String(idx). */
  function KeyOf(idx: int): (k: string)
    ensures 0 <= idx < 4 ==> k == Letters[idx]
    ensures !(0 <= idx < 4) ==> k == IntString(idx)
    ensures k != ""
  {
    if 0 <= idx < 4 then Letters[idx] else IntString(idx)
  }

  /**
   * Reading a key back inverts KeyOf on the four lettered positions, and
   * any other position reads back as no index.
   */
  lemma KeyIndexInvertsKeyOf(idx: int)
    ensures KeyIndex(Some(KeyOf(idx))) == if 0 <= idx < 4 then Some(idx) else None
  {
    if !(0 <= idx < 4) {
      var k := IntString(idx);
      assert IsDigit(k[0]) || k[0] == '-';
      assert k != "A" && k != "B" && k != "C" && k != "D";
    }
  }

  function McqChoices(options: seq<string>): (r: seq<ChoiceJson>)
    ensures |r| == |options|
    ensures forall i :: 0 <= i < |r| ==> r[i] == ChoiceObject(Some(KeyOf(i)), options[i])
  {
    seq(|options|, i requires 0 <= i < |options| => ChoiceObject(Some(KeyOf(i)), options[i]))
  }

  const TfngChoices: seq<ChoiceJson> :=
    [ChoiceObject(Some("T"), "True"), ChoiceObject(Some("F"), "False"), ChoiceObject(Some("NG"), "Not Given")]

  // ---------------------------------------------------------------------
  // Template answers
  // ---------------------------------------------------------------------

  /** The answer of one blank: its contents trimmed and lower-cased. */
  function BlankAnswer(b: string): string
  {
    Lower(Trim(b))
  }

  /** The answers of a template, one per bracket blank, in order. */
  function TemplateAnswers(tpl: string): (r: seq<string>)
    ensures |r| == BlankCount(tpl)
    ensures forall i :: 0 <= i < |r| ==> r[i] == BlankAnswer(Blanks.Blanks(tpl)[i])
  {
    var bs := Blanks.Blanks(tpl);
    seq(|bs|, i requires 0 <= i < |bs| => BlankAnswer(bs[i]))
  }

  function NonEmpty(xs: seq<string>): (r: seq<string>)
    ensures forall x :: x in r <==> x in xs && x != ""
  {
    if |xs| == 0 then []
    else NonEmpty(xs[..|xs| - 1]) + (if xs[|xs| - 1] != "" then [xs[|xs| - 1]] else [])
  }

  /** The dropdown options of a matching item: its distinct non-empty answers, first occurrence first. */
  function MatchingOptions(answers: seq<string>): (r: seq<string>)
    ensures forall x :: x in r <==> x in answers && x != ""
    ensures forall i, j :: 0 <= i < j < |r| ==> r[i] != r[j]
  {
    Distinct(NonEmpty(answers))
  }

  function TextChoices(texts: seq<string>): (r: seq<ChoiceJson>)
    ensures |r| == |texts|
    ensures forall i :: 0 <= i < |r| ==> r[i] == ChoiceObject(None, texts[i])
  {
    seq(|texts|, i requires 0 <= i < |texts| => ChoiceObject(None, texts[i]))
  }

  // ---------------------------------------------------------------------
  // The item columns written for a question
  // ---------------------------------------------------------------------

  /** choicesJson is written, or (short-answer items) left as it is. */
  datatype ChoicesPatch = KeepChoices | WriteChoices(choices: Option<seq<ChoiceJson>>)

  /**
   * The columns written besides pageId and itemOrder: the type columns of a
   * mapped type, or (patch left {}) only the question text.
   */
  datatype ItemPatch =
    | ItemPatch(itype: ItemType, question: string, choices: ChoicesPatch,
                correctKey: Option<string>, answerText: Option<seq<string>>)
    | CommonOnly(question: string)

  /** The template of a text question: its own template field, else its text. */
  function TemplateOf(q: FeQuestion): string
  {
    match q.qtype
      case Short => if q.shortTemplate != "" then q.shortTemplate else q.text
      case Matching => if q.matchingTemplate != "" then q.matchingTemplate else q.text
      case _ => ""
  }

  function PatchOf(q: FeQuestion): (p: ItemPatch)
    ensures p.ItemPatch? <==> q.qtype != Other
    ensures q.qtype == Mcq ==>
      && p.itype == MultipleChoice && p.answerText.None?
      && p.choices == WriteChoices(Some(McqChoices(q.options)))
      && (p.correctKey.Some? <==> q.correctIndex.Some?)
      && (q.correctIndex.Some? ==> p.correctKey == Some(KeyOf(q.correctIndex.value)))
    ensures q.qtype == Tfng ==>
      && p.itype == TrueFalseNotGiven && p.answerText.None?
      && p.choices == WriteChoices(Some(TfngChoices))
      && (p.correctKey.Some? <==> q.correctTFNG != "")
    ensures q.qtype == Short ==>
      && p.itype == ShortAnswer && p.choices == KeepChoices && p.correctKey.None?
      && p.question == TemplateOf(q) && p.answerText == Some(TemplateAnswers(TemplateOf(q)))
    ensures q.qtype == Matching ==>
      && p.itype == MatchingDropdown && p.correctKey.None?
      && p.question == TemplateOf(q) && p.answerText == Some(TemplateAnswers(TemplateOf(q)))
      && p.choices == WriteChoices(Some(TextChoices(MatchingOptions(TemplateAnswers(TemplateOf(q))))))
    ensures q.qtype == Other ==> p == CommonOnly(FirstNonEmpty(q.text, q.shortTemplate, q.matchingTemplate))
    ensures q.qtype == Mcq || q.qtype == Tfng ==> p.question == FirstNonEmpty(q.text, q.shortTemplate, q.matchingTemplate)
  {
    match q.qtype
      case Mcq =>
        ItemPatch(MultipleChoice, FirstNonEmpty(q.text, q.shortTemplate, q.matchingTemplate),
                  WriteChoices(Some(McqChoices(q.options))),
                  if q.correctIndex.Some? then Some(KeyOf(q.correctIndex.value)) else None, None)
      case Tfng =>
        ItemPatch(TrueFalseNotGiven, FirstNonEmpty(q.text, q.shortTemplate, q.matchingTemplate),
                  WriteChoices(Some(TfngChoices)), if q.correctTFNG != "" then Some(q.correctTFNG) else None, None)
      case Short =>
        var tpl := TemplateOf(q);
        ItemPatch(ShortAnswer, tpl, KeepChoices, None, Some(TemplateAnswers(tpl)))
      case Matching =>
        var tpl := TemplateOf(q);
        var answers := TemplateAnswers(tpl);
        ItemPatch(MatchingDropdown, tpl, WriteChoices(Some(TextChoices(MatchingOptions(answers)))), None, Some(answers))
      case Other =>
        CommonOnly(FirstNonEmpty(q.text, q.shortTemplate, q.matchingTemplate))
  }

  /**
   * The row after an update of an existing row (prior is Some) or a create
   * (prior is None): the patch's columns, the page and the order; a
   * column the patch leaves alone keeps its value, or is null on create.
   * A patch without the type column cannot create a row.
   */
  function ApplyPatch(prior: Option<ItemRow>, pageId: nat, itemOrder: int, p: ItemPatch): (r: ItemRow)
    requires p.CommonOnly? ==> prior.Some?
    ensures r.pageId == pageId && r.itemOrder == itemOrder && r.question == p.question
    ensures p.ItemPatch? ==> r.itype == p.itype && r.correctKey == p.correctKey && r.answerText == p.answerText
    ensures p.ItemPatch? && p.choices.WriteChoices? ==> r.choices == p.choices.choices
    ensures p.ItemPatch? && p.choices == KeepChoices ==> r.choices == if prior.Some? then prior.value.choices else None
    ensures p.CommonOnly? ==>
      r.itype == prior.value.itype && r.choices == prior.value.choices
      && r.correctKey == prior.value.correctKey && r.answerText == prior.value.answerText
  {
    match p
      case ItemPatch(itype, question, choices, correctKey, answerText) =>
        ItemRow(pageId, itemOrder, itype, question,
                match choices
                  case WriteChoices(c) => c
                  case KeepChoices => if prior.Some? then prior.value.choices else None,
                correctKey, answerText)
      case CommonOnly(question) =>
        prior.value.(pageId := pageId, itemOrder := itemOrder, question := question)
  }

  /** A saved row as it is loaded again with its media. */
  function Loaded(id: nat, row: ItemRow, media: seq<Media>): LoadedItem
  {
    LoadedItem(id, row.itype, row.question, row.choices, row.correctKey, media)
  }

  // ---------------------------------------------------------------------
  // Round trips through the draft view
  // ---------------------------------------------------------------------

  lemma McqTexts(options: seq<string>)
    ensures OptionTexts(Some(McqChoices(options))) == options
  {
  }

  /**
   * A saved multiple-choice question reads back with its options and, for
   * the lettered positions 0..3, its correct index; any other index reads
   * back as none.
   */
  lemma McqRoundTrip(q: FeQuestion, prior: Option<ItemRow>, pageId: nat, order: int, id: nat, media: seq<Media>)
    requires q.qtype == Mcq
    ensures DraftOfItem(Loaded(id, ApplyPatch(prior, pageId, order, PatchOf(q)), media))
      == DraftMcq(id, FirstNonEmpty(q.text, q.shortTemplate, q.matchingTemplate), q.options,
                  if q.correctIndex.Some? && 0 <= q.correctIndex.value < 4 then q.correctIndex else None,
                  MediaUrls(media))
  {
    McqTexts(q.options);
    if q.correctIndex.Some? {
      KeyIndexInvertsKeyOf(q.correctIndex.value);
    }
  }

  /** A saved true/false/not-given question reads back with its answer ("" as none). */
  lemma TfngRoundTrip(q: FeQuestion, prior: Option<ItemRow>, pageId: nat, order: int, id: nat, media: seq<Media>)
    requires q.qtype == Tfng
    ensures DraftOfItem(Loaded(id, ApplyPatch(prior, pageId, order, PatchOf(q)), media))
      == DraftTfng(id, FirstNonEmpty(q.text, q.shortTemplate, q.matchingTemplate),
                   if q.correctTFNG != "" then Some(q.correctTFNG) else None, MediaUrls(media))
  {
  }

  /** A saved short-answer question reads back with its template. */
  lemma ShortRoundTrip(q: FeQuestion, prior: Option<ItemRow>, pageId: nat, order: int, id: nat, media: seq<Media>)
    requires q.qtype == Short
    ensures DraftOfItem(Loaded(id, ApplyPatch(prior, pageId, order, PatchOf(q)), media))
      == DraftShort(id, TemplateOf(q), MediaUrls(media))
  {
  }

  lemma TextChoicesTexts(texts: seq<string>)
    ensures OptionTexts(Some(TextChoices(texts))) == texts
  {
  }

  /** A saved matching question reads back with its template and its options one per line. */
  lemma MatchingRoundTrip(q: FeQuestion, prior: Option<ItemRow>, pageId: nat, order: int, id: nat, media: seq<Media>)
    requires q.qtype == Matching
    ensures DraftOfItem(Loaded(id, ApplyPatch(prior, pageId, order, PatchOf(q)), media))
      == DraftMatching(id, TemplateOf(q), Join(MatchingOptions(TemplateAnswers(TemplateOf(q))), "\n"), MediaUrls(media))
  {
    TextChoicesTexts(MatchingOptions(TemplateAnswers(TemplateOf(q))));
  }

  // ---------------------------------------------------------------------
  // What gradeAttempt sees of a saved item
  // ---------------------------------------------------------------------

  /** The answer key as gradeAttempt reads answerText: an array of slots, or JSON null as "". */
  function KeyOfAnswerText(answerText: Option<seq<string>>): AnswerKey
  {
    match answerText
      case None => NotList("")
      case Some(xs) => SlotList(seq(|xs|, i requires 0 <= i < |xs| => Single(xs[i])))
  }

  function GradedItem(id: nat, row: ItemRow): Item
  {
    Item(id, row.itype, row.question, row.correctKey, KeyOfAnswerText(row.answerText))
  }

  /**
   * An item saved by the editor has exactly one key slot per blank of its
   * template, so grading it can never award more points than it counts
   * questions.
   */
  lemma SavedKeyFitsTemplate(q: FeQuestion, prior: Option<ItemRow>, pageId: nat, order: int, id: nat)
    requires q.qtype != Other
    ensures KeyFitsTemplate(GradedItem(id, ApplyPatch(prior, pageId, order, PatchOf(q))))
    ensures q.qtype == Short || q.qtype == Matching ==>
      |KeySlots(GradedItem(id, ApplyPatch(prior, pageId, order, PatchOf(q))).answerText)| == BlankCount(TemplateOf(q))
  {
  }

  /**
   * A question of another type keeps the stored key but gets a new text, so
   * a short-answer row with two blanks edited into a text without blanks
   * keeps two key slots for what now counts as one question.
   */
  lemma UntypedUpdateCanBreakFit()
    ensures var prior := ItemRow(0, 1, ShortAnswer, "I [am] a [student].", None, None, Some(["am", "student"]));
      var q := FeQuestion(Some(0), Other, "plain", "", "", [], None, "");
      KeyFitsTemplate(GradedItem(0, prior))
      && !KeyFitsTemplate(GradedItem(0, ApplyPatch(Some(prior), 0, 1, PatchOf(q))))
  {
    var prior := ItemRow(0, 1, ShortAnswer, "I [am] a [student].", None, None, Some(["am", "student"]));
    var q := FeQuestion(Some(0), Other, "plain", "", "", [], None, "");
    TemplateExample();
    assert QuestionCount(GradedItem(0, prior)) == 2;
    assert PatchOf(q) == CommonOnly("plain");
    var row := ApplyPatch(Some(prior), 0, 1, CommonOnly("plain"));
    assert row == prior.(question := "plain");
    NoBlanksInPlain();
    assert QuestionCount(GradedItem(0, row)) == 1;
    assert |KeySlots(GradedItem(0, row).answerText)| == 2;
  }

  lemma NoBlanksInPlain()
    ensures BlankCount("plain") == 0
  {
    assert !Contains("plain", '[') by {
      assert forall k :: 0 <= k < |"plain"| ==> "plain"[k] != '[';
    }
    BlanksSkipPlain("plain", "");
    assert "plain" + "" == "plain";
  }
}

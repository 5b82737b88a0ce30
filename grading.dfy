/**
 * The grading of src/utils/grade-attempt.js: stored temporary answers are
 * turned into answers (buildAnswersFromTemp), choice items score one point
 * for a matching key, text items score one point per matching blank after
 * normalisation (gradeAnswers), and every item counts as a number of
 * questions that depends on the brackets of its template (gradeAttempt).
 */
module Grading {
  import opened Common
  import opened Blanks
  import opened Scoring

  datatype ItemType = MultipleChoice | TrueFalseNotGiven | ShortAnswer | MatchingDropdown | OtherType

  /** Items graded by their selected key. */
  predicate IsChoice(t: ItemType) { t == MultipleChoice || t == TrueFalseNotGiven }

  /** Items graded blank by blank. */
  predicate IsText(t: ItemType) { t == ShortAnswer || t == MatchingDropdown }

  /** One slot of a stored answer key: a list of acceptable values, or one value. */
  datatype KeySlot = Alternatives(values: seq<string>) | Single(value: string)

  /**
   * A stored answerText: a JSON array of slots, or any other JSON value
   * (read through String(x ?? ''), so null is the empty string).
   */
  datatype AnswerKey = SlotList(slots: seq<KeySlot>) | NotList(value: string)

  datatype Item = Item(id: nat, itype: ItemType, question: string, correctKey: Option<string>, answerText: AnswerKey)

  /** A stored textAnswer: JSON null, a JSON array, or another JSON value read as its string. */
  datatype TextAnswer = NoText | TextList(values: seq<string>) | TextValue(value: string)

  /** The columns of a TemporaryAnswer row that grading reads. */
  datatype TempAnswer = TempAnswer(itemId: nat, selectedKey: Option<string>, textAnswer: TextAnswer)

  /** A submitted value: a selected key for choice items, a list of blanks for text items. */
  datatype AnswerValue = KeyValue(key: string) | SlotValues(values: seq<string>)

  datatype Answer = Answer(itemId: nat, itype: ItemType, value: AnswerValue)

  // ---------------------------------------------------------------------
  // Normalisation of text answers
  // ---------------------------------------------------------------------

  /** Characters a normalised answer consists of. */
  predicate IsNormChar(c: char) { IsLowerAscii(c) || IsDigit(c) || c == ' ' }

  /**
   * A normalised string: lower-case letters, digits and single spaces
   * between words, with no space at either end.
   */
  predicate IsNormal(r: string)
  {
    (forall i :: 0 <= i < |r| ==> IsNormChar(r[i]))
    && (|r| > 0 ==> r[0] != ' ' && r[|r| - 1] != ' ')
    && (forall i, j :: 0 <= i < |r| && 0 <= j < |r| && j == i + 1 ==> !(r[i] == ' ' && r[j] == ' '))
  }

  /**
   * What one character becomes before white space is collapsed: the
   * lower-cased letter or digit, and a space for anything else (white space
   * and every character outside [a-z0-9]).
   */
  function CanonChar(c: char): (r: char)
    ensures IsNormChar(r)
  {
    var l := LowerChar(c);
    if IsLowerAscii(l) || IsDigit(l) then l else ' '
  }

  function Canon(s: string): (r: string)
    ensures |r| == |s|
    ensures forall i :: 0 <= i < |s| ==> r[i] == CanonChar(s[i])
  {
    if |s| == 0 then [] else [CanonChar(s[0])] + Canon(s[1..])
  }

  /** Length of the leading word: the index of the first space, or |t|. */
  function WordEnd(t: string): (k: nat)
    ensures k <= |t|
    ensures forall i :: 0 <= i < k ==> t[i] != ' '
    ensures k < |t| ==> t[k] == ' '
  {
    if |t| == 0 || t[0] == ' ' then 0 else 1 + WordEnd(t[1..])
  }

  /** Runs of spaces collapsed to one, and spaces at both ends dropped. */
  function Squeeze(t: string): (r: string)
    requires forall i :: 0 <= i < |t| ==> IsNormChar(t[i])
    ensures |r| <= |t|
    decreases |t|
  {
    if |t| == 0 then []
    else if t[0] == ' ' then Squeeze(t[1..])
    else
      var k := WordEnd(t);
      var rest := Squeeze(t[k..]);
      if |rest| == 0 then t[..k] else t[..k] + " " + rest
  }

  /** Collapsing runs of spaces and dropping end spaces gives normal form. */
  lemma {:induction false} SqueezeIsNormal(t: string)
    requires forall i :: 0 <= i < |t| ==> IsNormChar(t[i])
    ensures IsNormal(Squeeze(t))
    decreases |t|
  {
    if |t| > 0 {
      if t[0] == ' ' {
        SqueezeIsNormal(t[1..]);
      } else {
        var k := WordEnd(t);
        var rest := Squeeze(t[k..]);
        SqueezeIsNormal(t[k..]);
        if |rest| > 0 {
          var r := t[..k] + " " + rest;
          assert forall i :: 0 <= i < k ==> r[i] == t[i];
          assert forall i :: k < i < |r| ==> r[i] == rest[i - k - 1];
        }
      }
    }
  }

  /**
   * norm: lower-case, turn every character outside [a-z0-9] into a space,
   * collapse white space and trim. Only ASCII letters are case-folded and
   * no Unicode decomposition is applied.
   */
  function Norm(s: string): (r: string)
    ensures IsNormal(r)
  {
    SqueezeIsNormal(Canon(s));
    Squeeze(Canon(s))
  }

  /** A normalised string is left as it is by Squeeze. */
  lemma {:induction false} SqueezeNormal(r: string)
    requires IsNormal(r)
    ensures Squeeze(r) == r
    decreases |r|
  {
    if |r| > 0 {
      var k := WordEnd(r);
      if k < |r| {
        NormalTail(r, k);
        SqueezeNormal(r[k + 1..]);
        SqueezeJoin(r, k);
      } else {
        SqueezeWord(r);
        assert r[k..] == [];
      }
    }
  }

  /** After the first word of a normalised string with a space in it come one space and a normalised tail. */
  lemma NormalTail(r: string, k: nat)
    requires IsNormal(r) && 0 < |r| && k == WordEnd(r) && k < |r|
    ensures r[k] == ' ' && k + 1 < |r| && IsNormal(r[k + 1..])
  {
    assert r[k] == ' ' && k + 1 < |r|;
    assert r[k + 1] != ' ';
    NormalSuffix(r, k + 1);
  }

  /** A suffix of a normalised string that starts with a word is normalised. */
  lemma NormalSuffix(r: string, m: nat)
    requires IsNormal(r) && m < |r| && r[m] != ' '
    ensures IsNormal(r[m..])
  {
    var s := r[m..];
    forall i | 0 <= i < |s|
      ensures IsNormChar(s[i])
    {
      assert s[i] == r[m + i];
    }
    forall i, j | 0 <= i < |s| && 0 <= j < |s| && j == i + 1
      ensures !(s[i] == ' ' && s[j] == ' ')
    {
      assert s[i] == r[m + i] && s[j] == r[m + j];
    }
  }

  /** A word, one space and a tail that Squeeze leaves alone are left alone together. */
  lemma SqueezeJoin(r: string, k: nat)
    requires forall i :: 0 <= i < |r| ==> IsNormChar(r[i])
    requires 0 < |r| && r[0] != ' ' && k == WordEnd(r) && k + 1 < |r| && r[k] == ' '
    requires Squeeze(r[k + 1..]) == r[k + 1..]
    ensures Squeeze(r) == r
  {
    var tail := r[k + 1..];
    assert Squeeze(r[k..]) == tail by {
      SqueezeSpace(r[k..]);
      assert r[k..][1..] == tail;
    }
    SqueezeWord(r);
    SplitAtSpace(r, k);
  }

  lemma SplitAtSpace(r: string, k: nat)
    requires k < |r| && r[k] == ' '
    ensures r == r[..k] + " " + r[k + 1..]
  {
    assert r[k..] == " " + r[k + 1..];
    assert r == r[..k] + r[k..];
  }

  /** A leading space is dropped. */
  lemma SqueezeSpace(t: string)
    requires forall i :: 0 <= i < |t| ==> IsNormChar(t[i])
    requires 0 < |t| && t[0] == ' '
    ensures Squeeze(t) == Squeeze(t[1..])
  {
  }

  /** Squeeze of a string starting with a word keeps the word, then one space before the squeezed rest when there is one. */
  lemma SqueezeWord(t: string)
    requires forall i :: 0 <= i < |t| ==> IsNormChar(t[i])
    requires 0 < |t| && t[0] != ' '
    ensures var k := WordEnd(t);
      var rest := Squeeze(t[k..]);
      Squeeze(t) == if |rest| == 0 then t[..k] else t[..k] + " " + rest
  {
  }

  /** Canon changes nothing in a normalised string. */
  lemma CanonNormal(r: string)
    requires IsNormal(r)
    ensures Canon(r) == r
  {
    forall i | 0 <= i < |r| ensures Canon(r)[i] == r[i] {
      assert IsNormChar(r[i]);
    }
  }

  /** A normalised string is its own norm. */
  lemma NormOfNormal(r: string)
    requires IsNormal(r)
    ensures Norm(r) == r
  {
    CanonNormal(r);
    SqueezeNormal(r);
  }

  /** norm is idempotent. */
  lemma NormIdempotent(s: string)
    ensures Norm(Norm(s)) == Norm(s)
  {
    NormOfNormal(Norm(s));
  }

  function NormAll(xs: seq<string>): (r: seq<string>)
    ensures |r| == |xs|
    ensures forall i :: 0 <= i < |xs| ==> r[i] == Norm(xs[i])
  {
    if |xs| == 0 then [] else [Norm(xs[0])] + NormAll(xs[1..])
  }

  // ---------------------------------------------------------------------
  // buildAnswersFromTemp
  // ---------------------------------------------------------------------

  /** The item a Map built from items returns for id: the last item with that id. */
  function ItemById(items: seq<Item>, id: nat): (r: Option<Item>)
    ensures r.Some? ==> r.value in items && r.value.id == id
    ensures r.None? ==> forall i :: 0 <= i < |items| ==> items[i].id != id
  {
    if |items| == 0 then None
    else if items[|items| - 1].id == id then Some(items[|items| - 1])
    else ItemById(items[..|items| - 1], id)
  }

  /** A stored textAnswer as a list: an array as it is, null as [], another value as [value]. */
  function TextSlots(t: TextAnswer): seq<string>
  {
    match t
      case NoText => []
      case TextList(vs) => vs
      case TextValue(v) => [v]
  }

  /** A key that JavaScript reads as true: present and non-empty. */
  predicate Truthy(k: Option<string>) { k.Some? && k.value != "" }

  /** The answer one temporary answer contributes, if any. */
  function AnswerFor(ta: TempAnswer, items: seq<Item>): Option<Answer>
  {
    match ItemById(items, ta.itemId)
      case None => None
      case Some(item) =>
        if IsChoice(item.itype) then
          if Truthy(ta.selectedKey) then Some(Answer(ta.itemId, item.itype, KeyValue(ta.selectedKey.value))) else None
        else if IsText(item.itype) then Some(Answer(ta.itemId, item.itype, SlotValues(TextSlots(ta.textAnswer))))
        else None
  }

  function OptionToSeq<T>(o: Option<T>): seq<T>
  {
    match o
      case None => []
      case Some(x) => [x]
  }

  /** The answers built from the temporary answers, in their order. */
  function BuildAnswers(ts: seq<TempAnswer>, items: seq<Item>): seq<Answer>
  {
    if |ts| == 0 then []
    else BuildAnswers(ts[..|ts| - 1], items) + OptionToSeq(AnswerFor(ts[|ts| - 1], items))
  }

  /**
   * buildAnswersFromTemp: one answer per temporary answer of a known item,
   * dropping choice answers without a selected key, in input order.
   */
  method BuildAnswersFromTemp(tempAnswers: seq<TempAnswer>, items: seq<Item>) returns (answers: seq<Answer>)
    ensures answers == BuildAnswers(tempAnswers, items)
    ensures forall a :: a in answers ==>
      ItemById(items, a.itemId).Some? && ItemById(items, a.itemId).value.itype == a.itype
  {
    answers := [];
    for k := 0 to |tempAnswers|
      invariant answers == BuildAnswers(tempAnswers[..k], items)
      invariant forall a :: a in answers ==>
        ItemById(items, a.itemId).Some? && ItemById(items, a.itemId).value.itype == a.itype
    {
      var ta := tempAnswers[k];
      assert tempAnswers[..k + 1][..k] == tempAnswers[..k];
      var item := ItemById(items, ta.itemId);
      if item.None? {
        continue;
      }
      if IsChoice(item.value.itype) {
        if Truthy(ta.selectedKey) {
          answers := answers + [Answer(ta.itemId, item.value.itype, KeyValue(ta.selectedKey.value))];
        }
      } else if IsText(item.value.itype) {
        answers := answers + [Answer(ta.itemId, item.value.itype, SlotValues(TextSlots(ta.textAnswer)))];
      }
    }
    assert tempAnswers[..|tempAnswers|] == tempAnswers;
  }

  // ---------------------------------------------------------------------
  // gradeAnswers
  // ---------------------------------------------------------------------

  /** Array.prototype.find on itemId: the first answer for the item. */
  function FindAnswer(answers: seq<Answer>, id: nat): (r: Option<Answer>)
    ensures r.Some? ==> r.value in answers && r.value.itemId == id
    ensures r.None? ==> forall i :: 0 <= i < |answers| ==> answers[i].itemId != id
  {
    if |answers| == 0 then None
    else if answers[0].itemId == id then Some(answers[0])
    else FindAnswer(answers[1..], id)
  }

  /** String(value || ''): a key as it is, a list joined with commas. */
  function ValueText(v: AnswerValue): string
  {
    match v
      case KeyValue(k) => k
      case SlotValues(vs) => Join(vs, ",")
  }

  /** String(item.correctKey || ''). */
  function KeyText(k: Option<string>): string
  {
    match k
      case None => ""
      case Some(s) => s
  }

  /** The normalised acceptable values of every slot of an answer key. */
  function KeySlots(key: AnswerKey): (r: seq<seq<string>>)
    ensures key.NotList? ==> |r| == 1
    ensures key.SlotList? ==> |r| == |key.slots|
  {
    match key
      case NotList(v) => [[Norm(v)]]
      case SlotList(slots) =>
        seq(|slots|, i requires 0 <= i < |slots| =>
          match slots[i]
            case Alternatives(vs) => NormAll(vs)
            case Single(v) => [Norm(v)])
  }

  /** The normalised blanks of a submitted value (a key is one blank). */
  function StudentSlots(v: AnswerValue): seq<string>
  {
    match v
      case KeyValue(k) => [Norm(k)]
      case SlotValues(vs) => NormAll(vs)
  }

  /** studentSlots[i] || '': a missing blank reads as the empty string. */
  function SlotAt(ss: seq<string>, i: nat): string
  {
    if i < |ss| then ss[i] else ""
  }

  /** Number of key slots i whose acceptable values include the student's blank i. */
  function SlotPoints(keys: seq<seq<string>>, ss: seq<string>): (r: nat)
    ensures r <= |keys|
  {
    if |keys| == 0 then 0
    else SlotPoints(keys[..|keys| - 1], ss) + (if SlotAt(ss, |keys| - 1) in keys[|keys| - 1] then 1 else 0)
  }

  /** A blank list that matches every slot earns one point per slot. */
  lemma {:induction false} SlotPointsAllMatch(keys: seq<seq<string>>, ss: seq<string>)
    requires |keys| <= |ss|
    requires forall i :: 0 <= i < |keys| ==> ss[i] in keys[i]
    ensures SlotPoints(keys, ss) == |keys|
  {
    if |keys| > 0 {
      var init := keys[..|keys| - 1];
      assert forall i :: 0 <= i < |init| ==> init[i] == keys[i];
      SlotPointsAllMatch(init, ss);
    }
  }

  /** Points one item earns from the answer found for it. */
  function ItemScore(item: Item, a: Option<Answer>): nat
  {
    match a
      case None => 0
      case Some(ans) =>
        if IsChoice(item.itype) then
          (if Trim(KeyText(item.correctKey)) == Trim(ValueText(ans.value)) then 1 else 0)
        else if IsText(item.itype) then SlotPoints(KeySlots(item.answerText), StudentSlots(ans.value))
        else 0
  }

  /** The number of correct answers over the items, each item scored on its first answer. */
  function CorrectCount(answers: seq<Answer>, items: seq<Item>): nat
  {
    if |items| == 0 then 0
    else
      var last := items[|items| - 1];
      CorrectCount(answers, items[..|items| - 1]) + ItemScore(last, FindAnswer(answers, last.id))
  }

  /** The per-blank loop of gradeAnswers for one text item. */
  method CountMatchingSlots(correctSlots: seq<seq<string>>, studentSlots: seq<string>) returns (count: nat)
    ensures count == SlotPoints(correctSlots, studentSlots)
  {
    count := 0;
    for i := 0 to |correctSlots|
      invariant count == SlotPoints(correctSlots[..i], studentSlots)
    {
      assert correctSlots[..i + 1][..i] == correctSlots[..i];
      var acceptable := correctSlots[i];
      var studentVal := SlotAt(studentSlots, i);
      if studentVal in acceptable {
        count := count + 1;
      }
    }
    assert correctSlots[..|correctSlots|] == correctSlots;
  }

  /** gradeAnswers: the number of correct choice items plus correct blanks. */
  method GradeAnswers(answers: seq<Answer>, items: seq<Item>) returns (correctCount: nat)
    ensures correctCount == CorrectCount(answers, items)
  {
    correctCount := 0;
    for k := 0 to |items|
      invariant correctCount == CorrectCount(answers, items[..k])
    {
      var item := items[k];
      assert items[..k + 1][..k] == items[..k];
      ghost var before := correctCount;
      var studentAnswer := FindAnswer(answers, item.id);
      assert CorrectCount(answers, items[..k + 1]) == before + ItemScore(item, studentAnswer);
      if studentAnswer.None? {
        continue;
      }
      if IsChoice(item.itype) {
        var correctKey := Trim(KeyText(item.correctKey));
        var studentValue := Trim(ValueText(studentAnswer.value.value));
        if correctKey == studentValue {
          correctCount := correctCount + 1;
        }
        continue;
      }
      if IsText(item.itype) {
        var correctSlots := KeySlots(item.answerText);
        var studentSlots := StudentSlots(studentAnswer.value.value);
        var matched := CountMatchingSlots(correctSlots, studentSlots);
        correctCount := correctCount + matched;
      }
    }
    assert items[..|items|] == items;
  }

  // ---------------------------------------------------------------------
  // The same grade read per item from the stored answers
  // ---------------------------------------------------------------------

  /** The stored answer of an item (the store keeps at most one per item). */
  function TempFor(ts: seq<TempAnswer>, id: nat): (r: Option<TempAnswer>)
    ensures r.Some? ==> r.value in ts && r.value.itemId == id
    ensures r.None? ==> forall i :: 0 <= i < |ts| ==> ts[i].itemId != id
  {
    if |ts| == 0 then None
    else if ts[|ts| - 1].itemId == id then Some(ts[|ts| - 1])
    else TempFor(ts[..|ts| - 1], id)
  }

  /**
   * Points of an item stated directly on its stored answer: a choice item
   * earns a point when a key was selected and it equals the correct key up
   * to surrounding white space; a text item earns a point per blank whose
   * normalised value is acceptable for that blank.
   */
  function StoredPoints(item: Item, ta: Option<TempAnswer>): nat
  {
    match ta
      case None => 0
      case Some(t) =>
        if IsChoice(item.itype) then
          (if Truthy(t.selectedKey) && Trim(KeyText(item.correctKey)) == Trim(t.selectedKey.value) then 1 else 0)
        else if IsText(item.itype) then SlotPoints(KeySlots(item.answerText), NormAll(TextSlots(t.textAnswer)))
        else 0
  }

  function StoredCount(ts: seq<TempAnswer>, items: seq<Item>): nat
  {
    if |items| == 0 then 0
    else StoredCount(ts, items[..|items| - 1]) + StoredPoints(items[|items| - 1], TempFor(ts, items[|items| - 1].id))
  }

  predicate DistinctItemIds(items: seq<Item>)
  {
    forall i, j :: 0 <= i < j < |items| ==> items[i].id != items[j].id
  }

  predicate DistinctAnswerIds(ts: seq<TempAnswer>)
  {
    forall i, j :: 0 <= i < j < |ts| ==> ts[i].itemId != ts[j].itemId
  }

  lemma {:induction false} FindAnswerAppend(xs: seq<Answer>, ys: seq<Answer>, id: nat)
    ensures FindAnswer(xs + ys, id) == if FindAnswer(xs, id).Some? then FindAnswer(xs, id) else FindAnswer(ys, id)
    decreases |xs|
  {
    if |xs| > 0 {
      assert (xs + ys)[1..] == xs[1..] + ys;
      if xs[0].itemId != id {
        FindAnswerAppend(xs[1..], ys, id);
      }
    } else {
      assert xs + ys == ys;
    }
  }

  /** With one stored answer per item, find returns the answer built from that item's row. */
  lemma {:induction false} FindBuiltAnswer(ts: seq<TempAnswer>, items: seq<Item>, id: nat)
    requires DistinctAnswerIds(ts)
    ensures FindAnswer(BuildAnswers(ts, items), id) ==
      match TempFor(ts, id)
        case None => None
        case Some(ta) => AnswerFor(ta, items)
    decreases |ts|
  {
    if |ts| > 0 {
      var init := ts[..|ts| - 1];
      var last := ts[|ts| - 1];
      assert DistinctAnswerIds(init);
      FindBuiltAnswer(init, items, id);
      FindAnswerAppend(BuildAnswers(init, items), OptionToSeq(AnswerFor(last, items)), id);
      if last.itemId == id {
        assert TempFor(init, id).None? by {
          forall i | 0 <= i < |init| ensures init[i].itemId != id {
            assert ts[i].itemId != ts[|ts| - 1].itemId;
          }
        }
        var o := AnswerFor(last, items);
        if o.Some? {
          assert o.value.itemId == id;
          assert FindAnswer(OptionToSeq(o), id) == o;
        }
      } else {
        var o := AnswerFor(last, items);
        if o.Some? {
          assert o.value.itemId == last.itemId;
          assert FindAnswer(OptionToSeq(o), id) == None;
        }
      }
    }
  }

  /** With distinct ids, the Map built from the items returns the item itself. */
  lemma {:induction false} ItemByIdOfMember(items: seq<Item>, k: nat)
    requires k < |items| && DistinctItemIds(items)
    ensures ItemById(items, items[k].id) == Some(items[k])
    decreases |items|
  {
    if k < |items| - 1 {
      assert items[k].id != items[|items| - 1].id;
      assert DistinctItemIds(items[..|items| - 1]);
      ItemByIdOfMember(items[..|items| - 1], k);
      assert items[..|items| - 1][k] == items[k];
    }
  }

  /** One item scores the same through built answers as on its stored row. */
  lemma ItemScoreStored(ts: seq<TempAnswer>, items: seq<Item>, k: nat)
    requires k < |items| && DistinctItemIds(items) && DistinctAnswerIds(ts)
    ensures ItemScore(items[k], FindAnswer(BuildAnswers(ts, items), items[k].id))
         == StoredPoints(items[k], TempFor(ts, items[k].id))
  {
    FindBuiltAnswer(ts, items, items[k].id);
    ItemByIdOfMember(items, k);
  }

  /**
   * Grading the answers built from the stored rows gives the per-item
   * grade of those rows: the order of the rows does not matter, and a choice
   * row without a selected key scores nothing, as does a row of an unknown
   * item.
   */
  lemma {:induction false} GradeMatchesStored(ts: seq<TempAnswer>, items: seq<Item>, n: nat)
    requires n <= |items| && DistinctItemIds(items) && DistinctAnswerIds(ts)
    ensures CorrectCount(BuildAnswers(ts, items), items[..n]) == StoredCount(ts, items[..n])
    decreases n
  {
    if n > 0 {
      var pre := items[..n];
      assert pre[..n - 1] == items[..n - 1];
      GradeMatchesStored(ts, items, n - 1);
      ItemScoreStored(ts, items, n - 1);
    }
  }

  // ---------------------------------------------------------------------
  // Question counting and the attempt score
  // ---------------------------------------------------------------------

  /** Questions an item counts for when grading: text items one per blank (at least one). */
  function QuestionCount(item: Item): (r: nat)
    ensures r >= 1
  {
    if IsText(item.itype) then (if BlankCount(item.question) == 0 then 1 else BlankCount(item.question))
    else 1
  }

  function TotalQuestions(items: seq<Item>): nat
  {
    if |items| == 0 then 0 else TotalQuestions(items[..|items| - 1]) + QuestionCount(items[|items| - 1])
  }

  /** The totalQuestions loop of gradeAttempt. */
  method CountQuestions(items: seq<Item>) returns (totalQuestions: nat)
    ensures totalQuestions == TotalQuestions(items)
    ensures totalQuestions >= |items|
  {
    totalQuestions := 0;
    for k := 0 to |items|
      invariant totalQuestions == TotalQuestions(items[..k])
      invariant totalQuestions >= k
    {
      assert items[..k + 1][..k] == items[..k];
      var it := items[k];
      if IsText(it.itype) {
        var blanks := BlankCount(it.question);
        if blanks == 0 {
          blanks := 1;
        }
        totalQuestions := totalQuestions + blanks;
      } else {
        totalQuestions := totalQuestions + 1;
      }
    }
    assert items[..|items|] == items;
  }

  /** A text item whose answer key has no more slots than the template has blanks (at least one). */
  predicate KeyFitsTemplate(item: Item)
  {
    IsText(item.itype) ==> |KeySlots(item.answerText)| <= QuestionCount(item)
  }

  lemma ItemScoreBounded(item: Item, a: Option<Answer>)
    requires KeyFitsTemplate(item)
    ensures ItemScore(item, a) <= QuestionCount(item)
  {
  }

  /** When every answer key fits its template, no more answers are correct than there are questions. */
  lemma {:induction false} CorrectAtMostTotal(answers: seq<Answer>, items: seq<Item>)
    requires forall i :: 0 <= i < |items| ==> KeyFitsTemplate(items[i])
    ensures CorrectCount(answers, items) <= TotalQuestions(items)
    decreases |items|
  {
    if |items| > 0 {
      CorrectAtMostTotal(answers, items[..|items| - 1]);
      ItemScoreBounded(items[|items| - 1], FindAnswer(answers, items[|items| - 1].id));
    }
  }

  datatype GradeResult = GradeResult(totalScore: int, totalQuestions: nat, correctAnswers: nat)

  /**
   * The grade of a package's items against stored temporary answers; a
   * missing attempt or package (items None) grades as all zeros.
   */
  function GradeOf(items: Option<seq<Item>>, ts: seq<TempAnswer>): (r: GradeResult)
    ensures items.None? ==> r == GradeResult(0, 0, 0)
  {
    match items
      case None => GradeResult(0, 0, 0)
      case Some(its) =>
        var correct := CorrectCount(BuildAnswers(ts, its), its);
        var total := TotalQuestions(its);
        GradeResult(AttemptScore(correct, total), total, correct)
  }

  /**
   * When every answer key fits its template the attempt score is a
   * percentage between 0 and 100.
   */
  lemma GradeIsPercentage(items: seq<Item>, ts: seq<TempAnswer>)
    requires forall i :: 0 <= i < |items| ==> KeyFitsTemplate(items[i])
    ensures 0 <= GradeOf(Some(items), ts).totalScore <= 100
    ensures GradeOf(Some(items), ts).correctAnswers <= GradeOf(Some(items), ts).totalQuestions
  {
    var correct := CorrectCount(BuildAnswers(ts, items), items);
    CorrectAtMostTotal(BuildAnswers(ts, items), items);
    ScoreIsPercentage(correct, TotalQuestions(items));
  }

  /** A word of lower-case letters is its own norm. */
  lemma NormOfWord(w: string)
    requires |w| > 0 && forall i :: 0 <= i < |w| ==> IsLowerAscii(w[i])
    ensures Norm(w) == w
  {
    NormOfNormal(w);
  }

  /** Upper-case letters are folded: norm("Red") is "red". */
  lemma NormRed()
    ensures Norm("Red") == "red"
  {
    assert Canon("Red") == "red";
    NormOfWord("red");
    assert Canon("red") == "red";
  }

  /** norm("COLD") is "cold". */
  lemma NormCold()
    ensures Norm("COLD") == "cold"
  {
    assert Canon("COLD") == "cold";
    NormOfWord("cold");
    assert Canon("cold") == "cold";
  }

  /** A trailing space is trimmed: norm("sweet ") is "sweet". */
  lemma NormSweet()
    ensures Norm("sweet ") == "sweet"
  {
    var t := "sweet ";
    assert Canon(t) == t;
    assert WordEnd(t[5..]) == 0;
    assert WordEnd(t[4..]) == 1 by { assert t[4..][1..] == t[5..]; }
    assert WordEnd(t[3..]) == 2 by { assert t[3..][1..] == t[4..]; }
    assert WordEnd(t[2..]) == 3 by { assert t[2..][1..] == t[3..]; }
    assert WordEnd(t[1..]) == 4 by { assert t[1..][1..] == t[2..]; }
    assert WordEnd(t) == 5;
    assert Squeeze(t[5..]) == [] by { assert t[5..][1..] == []; }
    assert t[..5] == "sweet";
  }

  /**
   * Case and trailing white space do not matter: the blanks "Red",
   * "sweet " and "COLD" earn all three points against the keys red, sweet
   * and cold.
   */
  lemma NormExample()
    ensures var item := Item(0, ShortAnswer, "[a] [b] [c]", None,
                             SlotList([Alternatives(["red"]), Alternatives(["sweet"]), Alternatives(["cold"])]));
      ItemScore(item, Some(Answer(0, ShortAnswer, SlotValues(["Red", "sweet ", "COLD"])))) == 3
  {
    var item := Item(0, ShortAnswer, "[a] [b] [c]", None,
                     SlotList([Alternatives(["red"]), Alternatives(["sweet"]), Alternatives(["cold"])]));
    var ans := Answer(0, ShortAnswer, SlotValues(["Red", "sweet ", "COLD"]));
    TextItemScore(item, ans);
    ExampleKeys();
    ExampleBlanks();
    ThreeSlotsMatch(KeySlots(item.answerText), StudentSlots(ans.value));
  }

  /** A text item scores the slots its answer matches. */
  lemma TextItemScore(item: Item, ans: Answer)
    requires IsText(item.itype)
    ensures ItemScore(item, Some(ans)) == SlotPoints(KeySlots(item.answerText), StudentSlots(ans.value))
  {
  }

  lemma ThreeSlotsMatch(keys: seq<seq<string>>, ss: seq<string>)
    requires keys == [["red"], ["sweet"], ["cold"]] && ss == ["red", "sweet", "cold"]
    ensures SlotPoints(keys, ss) == 3
  {
    SlotPointsAllMatch(keys, ss);
  }

  /** The keys red, sweet and cold are already normal. */
  lemma ExampleKeys()
    ensures KeySlots(SlotList([Alternatives(["red"]), Alternatives(["sweet"]), Alternatives(["cold"])]))
         == [["red"], ["sweet"], ["cold"]]
  {
    NormOfWord("red");
    NormOfWord("sweet");
    NormOfWord("cold");
    assert NormAll(["red"]) == ["red"];
    assert NormAll(["sweet"]) == ["sweet"];
    assert NormAll(["cold"]) == ["cold"];
  }

  /** The blanks "Red", "sweet " and "COLD" normalise to red, sweet and cold. */
  lemma ExampleBlanks()
    ensures NormAll(["Red", "sweet ", "COLD"]) == ["red", "sweet", "cold"]
  {
    NormRed();
    NormSweet();
    NormCold();
  }

  /** No brackets in "Colours", so it counts as one question. */
  lemma ColoursHasNoBlank()
    ensures BlankCount("Colours") == 0
  {
    var q := "Colours";
    assert !Contains(q, '[');
    BlanksSkipPlain(q, "");
    assert q + "" == q;
  }

  /**
   * The score is not capped at 100: a short-answer question without
   * brackets counts as one question, but an answer key of two slots lets
   * it earn two points, so the attempt scores 200.
   */
  lemma ScoreCanExceedHundred()
    ensures var item := Item(0, ShortAnswer, "Colours", None, SlotList([Single("red"), Single("blue")]));
      var ts := [TempAnswer(0, None, TextList(["red", "blue"]))];
      !KeyFitsTemplate(item) && GradeOf(Some([item]), ts).totalScore == 200
  {
    var item := Item(0, ShortAnswer, "Colours", None, SlotList([Single("red"), Single("blue")]));
    var ts := [TempAnswer(0, None, TextList(["red", "blue"]))];
    ColoursHasNoBlank();
    assert QuestionCount(item) == 1;
    var ans := Answer(0, ShortAnswer, SlotValues(["red", "blue"]));
    OneTextAnswerBuilt(item, ts);
    assert FindAnswer([ans], 0) == Some(ans);
    TextItemScore(item, ans);
    TwoKeysNormal(item.answerText, ans.value);
    assert CorrectCount([ans], [item]) == 2 by {
      assert [item][..0] == [];
    }
    assert TotalQuestions([item]) == 1 by {
      assert [item][..0] == [];
    }
    TwoOfOneIsTwoHundred();
  }

  /** The single stored answer of the example becomes one slot answer. */
  lemma OneTextAnswerBuilt(item: Item, ts: seq<TempAnswer>)
    requires item == Item(0, ShortAnswer, "Colours", None, SlotList([Single("red"), Single("blue")]))
    requires ts == [TempAnswer(0, None, TextList(["red", "blue"]))]
    ensures BuildAnswers(ts, [item]) == [Answer(0, ShortAnswer, SlotValues(["red", "blue"]))]
  {
    assert ts[..|ts| - 1] == [];
    assert ItemById([item], 0) == Some(item);
  }

  /** Both keys and both blanks of the example are normal, and both match. */
  lemma TwoKeysNormal(key: AnswerKey, v: AnswerValue)
    requires key == SlotList([Single("red"), Single("blue")]) && v == SlotValues(["red", "blue"])
    ensures SlotPoints(KeySlots(key), StudentSlots(v)) == 2
  {
    NormOfWord("red");
    NormOfWord("blue");
    assert KeySlots(key) == [["red"], ["blue"]];
    assert NormAll(["red", "blue"]) == ["red", "blue"];
    SlotPointsAllMatch(KeySlots(key), StudentSlots(v));
  }

  /** Two correct answers out of one question score 200. */
  lemma TwoOfOneIsTwoHundred()
    ensures AttemptScore(2, 1) == 200
  {
    assert CalculateScore(2, 1) == Round2(200.0);
    assert Round2(200.0) == 200.0;
  }

  // ---------------------------------------------------------------------
  // The grade read from answers stored by item id
  // ---------------------------------------------------------------------

  function Lookup(m: map<nat, TempAnswer>, id: nat): Option<TempAnswer>
  {
    if id in m then Some(m[id]) else None
  }

  /** Correct answers of the items against answers stored by item id. */
  function LookupCount(items: seq<Item>, m: map<nat, TempAnswer>): nat
  {
    if |items| == 0 then 0
    else LookupCount(items[..|items| - 1], m) + StoredPoints(items[|items| - 1], Lookup(m, items[|items| - 1].id))
  }

  function LookupGrade(items: seq<Item>, m: map<nat, TempAnswer>): GradeResult
  {
    var correct := LookupCount(items, m);
    var total := TotalQuestions(items);
    GradeResult(AttemptScore(correct, total), total, correct)
  }

  /** A list of stored answers that holds exactly the answers of the map. */
  ghost predicate ListsMap(ts: seq<TempAnswer>, m: map<nat, TempAnswer>)
  {
    forall id :: TempFor(ts, id) == Lookup(m, id)
  }

  lemma {:induction false} StoredCountOfList(ts: seq<TempAnswer>, m: map<nat, TempAnswer>, items: seq<Item>)
    requires ListsMap(ts, m)
    ensures StoredCount(ts, items) == LookupCount(items, m)
    decreases |items|
  {
    if |items| > 0 {
      StoredCountOfList(ts, m, items[..|items| - 1]);
      assert TempFor(ts, items[|items| - 1].id) == Lookup(m, items[|items| - 1].id);
    }
  }

  /**
   * gradeAttempt on any listing of an attempt's stored answers (one per
   * item, in any order) gives the grade read from those answers by item id.
   */
  lemma GradeOfListing(items: seq<Item>, ts: seq<TempAnswer>, m: map<nat, TempAnswer>)
    requires DistinctItemIds(items) && DistinctAnswerIds(ts) && ListsMap(ts, m)
    ensures GradeOf(Some(items), ts) == LookupGrade(items, m)
  {
    GradeMatchesStored(ts, items, |items|);
    assert items[..|items|] == items;
    StoredCountOfList(ts, m, items);
  }

  lemma {:induction false} LookupCountAtMostTotal(items: seq<Item>, m: map<nat, TempAnswer>)
    requires forall i :: 0 <= i < |items| ==> KeyFitsTemplate(items[i])
    ensures LookupCount(items, m) <= TotalQuestions(items)
    decreases |items|
  {
    if |items| > 0 {
      LookupCountAtMostTotal(items[..|items| - 1], m);
    }
  }

  /** When every answer key fits its template the stored grade is a percentage. */
  lemma LookupGradeIsPercentage(items: seq<Item>, m: map<nat, TempAnswer>)
    requires forall i :: 0 <= i < |items| ==> KeyFitsTemplate(items[i])
    ensures 0 <= LookupGrade(items, m).totalScore <= 100
  {
    LookupCountAtMostTotal(items, m);
    ScoreIsPercentage(LookupCount(items, m), TotalQuestions(items));
  }
}

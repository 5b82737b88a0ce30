/**
 * POST /api/questions/item (app/api/questions/item/route.js): the editor
 * adds one empty question to a page. The answers of a text question come
 * from the first source that has any, and the options of a matching
 * question from the request or else from the answers.
 */
module QuestionItem {
  import opened Common
  import opened Grading
  import opened Blanks
  import opened Content
  import opened QuestionMapping

  /** body.answerText: an array (null elements as None), a string, or anything else. */
  datatype AnswerTextInput = AnswerArray(values: seq<Option<string>>) | AnswerString(s: string) | AnswerAbsent

  /**
   * One element of body.options: a string, an object with its text, label
   * and value fields (None when null or missing), or a falsy value.
   */
  datatype OptionInput = OptString(s: string) | OptObject(text: Option<string>, labelText: Option<string>, value: Option<string>) | OptFalsy

  /** The request body; options is None when it is not an array. */
  datatype ItemRequest = ItemRequest(pageId: Option<nat>, itype: string, question: string,
                                     answerText: AnswerTextInput, options: Option<seq<OptionInput>>)

  datatype ItemReply = Unauthorized | Forbidden | PageIdRequired | InvalidType | PageNotFound | Created(id: nat, itemOrder: int)

  /** The four type names the route accepts. */
  function ItemTypeOf(name: string): (r: Option<ItemType>)
    ensures r.Some? <==> name in ["MULTIPLE_CHOICE", "TRUE_FALSE_NOT_GIVEN", "SHORT_ANSWER", "MATCHING_DROPDOWN"]
    ensures r.Some? ==> r.value != OtherType
  {
    if name == "MULTIPLE_CHOICE" then Some(MultipleChoice)
    else if name == "TRUE_FALSE_NOT_GIVEN" then Some(TrueFalseNotGiven)
    else if name == "SHORT_ANSWER" then Some(ShortAnswer)
    else if name == "MATCHING_DROPDOWN" then Some(MatchingDropdown)
    else None
  }

  /** String(v ?? '') of a string or a null. */
  function OrEmpty(v: Option<string>): string
  {
    if v.Some? then v.value else ""
  }

  /**
   * The answerText column of the new item. A text question takes, in this
   * order, the answers of its template's blanks, the request's array, the
   * request's non-empty string as a single answer, or no answers; every
   * answer is trimmed and lower-cased. Other types store null.
   */
  function ItemAnswerText(t: ItemType, question: string, body: AnswerTextInput): (r: Option<seq<string>>)
    ensures r.Some? <==> IsText(t)
    ensures IsText(t) && BlankCount(question) > 0 ==> r == Some(TemplateAnswers(question))
    ensures IsText(t) && BlankCount(question) == 0 && body.AnswerArray? ==>
      |r.value| == |body.values| && forall i :: 0 <= i < |r.value| ==> r.value[i] == BlankAnswer(OrEmpty(body.values[i]))
    ensures IsText(t) && BlankCount(question) == 0 && body.AnswerString? && body.s != "" ==> r == Some([BlankAnswer(body.s)])
    ensures IsText(t) && BlankCount(question) == 0 && (body.AnswerAbsent? || body == AnswerString("")) ==> r == Some([])
  {
    if !IsText(t) then None
    else if BlankCount(question) > 0 then Some(TemplateAnswers(question))
    else match body
      case AnswerArray(vs) => Some(seq(|vs|, i requires 0 <= i < |vs| => BlankAnswer(OrEmpty(vs[i]))))
      case AnswerString(s) => if s != "" then Some([BlankAnswer(s)]) else Some([])
      case AnswerAbsent => Some([])
  }

  /** o.text ?? o.label ?? o.value ?? '' */
  function FirstDefined(a: Option<string>, b: Option<string>, c: Option<string>): string
  {
    if a.Some? then a.value else if b.Some? then b.value else OrEmpty(c)
  }

  /** The choice an option becomes, if any. */
  function OptionChoice(o: OptionInput): seq<ChoiceJson>
  {
    match o
      case OptString(s) => [ChoiceObject(None, Trim(s))]
      case OptObject(text, labelText, value) =>
        var t := Trim(FirstDefined(text, labelText, value));
        if t != "" then [ChoiceObject(None, t)] else []
      case OptFalsy => []
  }

  /**
   * The request's matching options as choices, in order: every string
   * option is kept, trimmed, even when that leaves it empty; an object
   * option is kept only when its text is not blank; falsy options are
   * dropped.
   */
  function OptionChoices(opts: seq<OptionInput>): (r: seq<ChoiceJson>)
    ensures |r| <= |opts|
  {
    if |opts| == 0 then [] else OptionChoices(opts[..|opts| - 1]) + OptionChoice(opts[|opts| - 1])
  }

  /** Every option choice is a bare {text} object. */
  lemma {:induction false} OptionChoicesAreTexts(opts: seq<OptionInput>)
    ensures forall c :: c in OptionChoices(opts) ==> c.ChoiceObject? && c.key.None?
  {
    if |opts| > 0 {
      OptionChoicesAreTexts(opts[..|opts| - 1]);
    }
  }

  /** Every option is a string. */
  predicate AllStrings(opts: seq<OptionInput>)
  {
    forall i :: 0 <= i < |opts| ==> opts[i].OptString?
  }

  /** A string option becomes exactly one choice. */
  lemma StringChoice(o: OptionInput)
    requires o.OptString?
    ensures OptionChoice(o) == [ChoiceObject(None, Trim(o.s))]
  {
  }

  /** Dropping the last option keeps the options all strings. */
  lemma AllStringsInit(opts: seq<OptionInput>)
    requires AllStrings(opts) && |opts| > 0
    ensures AllStrings(opts[..|opts| - 1]) && opts[|opts| - 1].OptString?
  {
    var init := opts[..|opts| - 1];
    forall i | 0 <= i < |init| ensures init[i].OptString? {
      assert init[i] == opts[i];
    }
  }

  /** String options are all kept, one choice each, even when they trim to "". */
  lemma {:induction false} StringOptionsKept(opts: seq<OptionInput>)
    requires AllStrings(opts)
    ensures |OptionChoices(opts)| == |opts|
  {
    if |opts| > 0 {
      AllStringsInit(opts);
      StringOptionsKept(opts[..|opts| - 1]);
      StringChoice(opts[|opts| - 1]);
    }
  }

  /** The i-th choice of string options is the i-th option, trimmed. */
  lemma {:induction false} StringOptionAt(opts: seq<OptionInput>, i: nat)
    requires AllStrings(opts) && i < |opts|
    ensures i < |OptionChoices(opts)| && OptionChoices(opts)[i] == ChoiceObject(None, Trim(opts[i].s))
  {
    var n := |opts| - 1;
    var init := opts[..n];
    AllStringsInit(opts);
    StringOptionsKept(init);
    var prev := OptionChoices(init);
    var last := ChoiceObject(None, Trim(opts[n].s));
    assert OptionChoices(opts) == prev + [last] by {
      StringChoice(opts[n]);
    }
    if i < n {
      StringOptionAt(init, i);
      assert init[i] == opts[i];
      assert (prev + [last])[i] == prev[i];
      assert OptionChoices(opts)[i] == ChoiceObject(None, Trim(opts[i].s));
    } else {
      assert i == n;
      assert OptionChoices(opts)[i] == last;
    }
  }

  /** Object and falsy options never yield a blank choice. */
  lemma {:induction false} ObjectOptionsNonBlank(opts: seq<OptionInput>)
    requires forall i :: 0 <= i < |opts| ==> !opts[i].OptString?
    ensures forall c :: c in OptionChoices(opts) ==> c.ChoiceObject? && c.text != ""
  {
    if |opts| > 0 {
      ObjectOptionsNonBlank(opts[..|opts| - 1]);
    }
  }

  /**
   * choicesJson of the new item: [] for a multiple-choice item; for a
   * matching item the request's options when it sends a non-empty array,
   * else the distinct non-empty answers when there are answers, else
   * null; null for the other types.
   */
  function ItemChoices(t: ItemType, options: Option<seq<OptionInput>>, answers: Option<seq<string>>): (r: Option<seq<ChoiceJson>>)
    ensures t == MultipleChoice ==> r == Some([])
    ensures t != MultipleChoice && t != MatchingDropdown ==> r.None?
    ensures t == MatchingDropdown && options.Some? && |options.value| > 0 ==> r == Some(OptionChoices(options.value))
    ensures t == MatchingDropdown && !(options.Some? && |options.value| > 0) ==>
      if answers.Some? && |answers.value| > 0 then r == Some(TextChoices(MatchingOptions(answers.value))) else r.None?
  {
    if t == MultipleChoice then Some([])
    else if t != MatchingDropdown then None
    else if options.Some? && |options.value| > 0 then Some(OptionChoices(options.value))
    else if answers.Some? && |answers.value| > 0 then Some(TextChoices(MatchingOptions(answers.value)))
    else None
  }

  /** The row the route inserts. */
  function PlaceholderRow(t: ItemType, pageId: nat, itemOrder: int, req: ItemRequest): ItemRow
  {
    var answers := ItemAnswerText(t, req.question, req.answerText);
    ItemRow(pageId, itemOrder, t, req.question, ItemChoices(t, req.options, answers), None, answers)
  }

  /** The itemOrder of every item. */
  function ItemOrders(items: map<nat, ItemRow>): (r: map<nat, int>)
    ensures r.Keys == items.Keys
  {
    map k | k in items :: items[k].itemOrder
  }

  // ---------------------------------------------------------------------
  // What gradeAttempt makes of a placeholder
  // ---------------------------------------------------------------------

  /**
   * When the question has blanks, the new item's answer key has one slot
   * per blank, so it fits its template.
   */
  lemma PlaceholderKeyFits(t: ItemType, id: nat, pageId: nat, itemOrder: int, req: ItemRequest)
    requires BlankCount(req.question) > 0
    ensures KeyFitsTemplate(GradedItem(id, PlaceholderRow(t, pageId, itemOrder, req)))
  {
  }

  /**
   * Without blanks the answers come from the request and need not fit: a
   * short-answer question with no brackets and two answers counts as one
   * question but has two key slots.
   */
  lemma PlaceholderKeyCanOverflow()
    ensures var req := ItemRequest(Some(0), "SHORT_ANSWER", "Colours", AnswerArray([Some("red"), Some("blue")]), None);
      !KeyFitsTemplate(GradedItem(0, PlaceholderRow(ShortAnswer, 0, 1, req)))
  {
    var q := "Colours";
    assert !Contains(q, '[');
    BlanksSkipPlain(q, "");
    assert q + "" == q;
    assert BlankCount(q) == 0;
  }

  // ---------------------------------------------------------------------
  // The route
  // ---------------------------------------------------------------------

  /** POST /api/questions/item for an authenticated user whose role is user (None when the user is gone). */
  method PostItem(store: ContentStore, user: Option<Role>, req: ItemRequest) returns (reply: ItemReply)
    requires store.Valid()
    modifies store
    ensures store.Valid()
    ensures user.None? ==> reply == Unauthorized
    ensures user.Some? && !IsStaff(user.value) ==> reply == Forbidden
    ensures StaffUser(user) && req.pageId.None? ==> reply == PageIdRequired
    ensures StaffUser(user) && req.pageId.Some? && ItemTypeOf(req.itype).None? ==> reply == InvalidType
    ensures StaffUser(user) && req.pageId.Some? && ItemTypeOf(req.itype).Some? && req.pageId.value !in old(store.pages) ==>
      reply == PageNotFound
    ensures !reply.Created? ==> unchanged(store)
    ensures reply.Created? ==>
      var pid := req.pageId.value;
      var onPage := ItemsOfPages(old(store.items), {pid});
      && StaffUser(user) && req.pageId.Some? && ItemTypeOf(req.itype).Some? && pid in old(store.pages)
      && reply.id == old(store.nextId) && store.nextId == old(store.nextId) + 1
      && store.items == old(store.items)[reply.id := PlaceholderRow(ItemTypeOf(req.itype).value, pid, reply.itemOrder, req)]
      && store.pages == old(store.pages) && store.media == old(store.media) && store.packages == old(store.packages)
      && (onPage == {} ==> reply.itemOrder == 1)
      && (onPage != {} ==> (exists k :: k in onPage && reply.itemOrder == old(store.items)[k].itemOrder + 1)
                           && forall k :: k in onPage ==> old(store.items)[k].itemOrder < reply.itemOrder)
  {
    if user.None? {
      return Unauthorized;
    }
    if !IsStaff(user.value) {
      return Forbidden;
    }
    if req.pageId.None? {
      return PageIdRequired;
    }
    var t := ItemTypeOf(req.itype);
    if t.None? {
      return InvalidType;
    }
    var pid := req.pageId.value;
    if pid !in store.pages {
      return PageNotFound;
    }
    var order := NextOrder(ItemOrders(store.items), ItemsOfPages(store.items, {pid}));
    var id := store.nextId;
    store.items := store.items[id := PlaceholderRow(t.value, pid, order, req)];
    store.nextId := store.nextId + 1;
    reply := Created(id, order);
  }
}

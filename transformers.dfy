/**
 * src/utils/questionTransformers.js: the editor's draft view of a
 * package's saved pages (transformQuestionsToDraft), the content snapshot
 * that is hashed to detect edits (buildContentSnapshot) and the hash
 * itself (computeContentHash).
 */
module Transformers {
  import opened Common
  import opened Grading
  import opened Content

  // ---------------------------------------------------------------------
  // Shared readers
  // ---------------------------------------------------------------------

  /** The url of the first asset of the kind, "" when there is none (or its url is empty). */
  function FirstUrl(media: seq<Media>, kind: MediaKind): (url: string)
    ensures (forall i :: 0 <= i < |media| ==> media[i].kind != kind) ==> url == ""
    ensures url != "" ==> exists i :: 0 <= i < |media| && media[i].kind == kind && media[i].url == url
                                    && forall j :: 0 <= j < i ==> media[j].kind != kind
  {
    if |media| == 0 then ""
    else if media[0].kind == kind then media[0].url
    else FirstUrl(media[1..], kind)
  }

  /** The text an editor shows for a stored choice. */
  function ChoiceText(c: ChoiceJson): string
  {
    match c
      case ChoiceString(s) => s
      case ChoiceObject(_, text) => text
      case ChoiceNull => ""
  }

  /** The texts of a choicesJson array, in order; [] when it is not an array. */
  function OptionTexts(choices: Option<seq<ChoiceJson>>): (r: seq<string>)
    ensures choices.None? ==> r == []
    ensures choices.Some? ==> |r| == |choices.value|
    ensures choices.Some? ==> forall i :: 0 <= i < |r| ==> r[i] == ChoiceText(choices.value[i])
  {
    if choices.None? then [] else seq(|choices.value|, i requires 0 <= i < |choices.value| => ChoiceText(choices.value[i]))
  }

  /** The letter keys of the first four multiple-choice options. */
  const Letters: seq<string> := ["A", "B", "C", "D"]

  /** The position of a letter key A..D; anything else (or no key) is null. */
  function KeyIndex(key: Option<string>): (r: Option<int>)
    ensures r.Some? <==> key.Some? && key.value in Letters
    ensures r.Some? ==> 0 <= r.value < 4 && Letters[r.value] == key.value
  {
    if key == Some("A") then Some(0)
    else if key == Some("B") then Some(1)
    else if key == Some("C") then Some(2)
    else if key == Some("D") then Some(3)
    else None
  }

  /** `correctKey || null`: an empty key reads as no key. */
  function TruthyKey(key: Option<string>): (r: Option<string>)
    ensures r.Some? <==> key.Some? && key.value != ""
    ensures r.Some? ==> r == key
  {
    if key.Some? && key.value != "" then key else None
  }

  // ---------------------------------------------------------------------
  // transformQuestionsToDraft
  // ---------------------------------------------------------------------

  datatype DraftMedia = DraftMedia(imageUrl: string, audioUrl: string)

  /** A question as the editor edits it (the file fields are always null and are not kept). */
  datatype DraftQuestion =
    | DraftMcq(id: nat, text: string, options: seq<string>, correctIndex: Option<int>, media: DraftMedia)
    | DraftTfng(id: nat, text: string, correctTFNG: Option<string>, media: DraftMedia)
    | DraftShort(id: nat, shortTemplate: string, media: DraftMedia)
    | DraftMatching(id: nat, matchingTemplate: string, optionsText: string, media: DraftMedia)

  /** A page as the editor edits it (multiple is always true and is not kept). */
  datatype DraftPage = DraftPage(id: nat, storyMedia: DraftMedia, storyText: string, instructions: string,
                                 questions: seq<DraftQuestion>)

  function MediaUrls(media: seq<Media>): DraftMedia
  {
    DraftMedia(FirstUrl(media, Image), FirstUrl(media, Audio))
  }

  function OrEmpty(s: Option<string>): string
  {
    if s.Some? then s.value else ""
  }

  function DraftOfItem(it: LoadedItem): (d: DraftQuestion)
    ensures d.id == it.id && d.media == MediaUrls(it.media)
    ensures d.DraftMcq? <==> it.itype == MultipleChoice || it.itype == OtherType
    ensures d.DraftTfng? <==> it.itype == TrueFalseNotGiven
    ensures d.DraftShort? <==> it.itype == ShortAnswer
    ensures d.DraftMatching? <==> it.itype == MatchingDropdown
    ensures it.itype == OtherType ==> d == DraftMcq(it.id, "", [], None, MediaUrls(it.media))
  {
    var media := MediaUrls(it.media);
    match it.itype
      case MultipleChoice =>
        DraftMcq(it.id, it.question, OptionTexts(it.choices), if it.correctKey.Some? && it.correctKey.value != "" then KeyIndex(it.correctKey) else None, media)
      case TrueFalseNotGiven => DraftTfng(it.id, it.question, TruthyKey(it.correctKey), media)
      case ShortAnswer => DraftShort(it.id, it.question, media)
      case MatchingDropdown => DraftMatching(it.id, it.question, Join(OptionTexts(it.choices), "\n"), media)
      case OtherType => DraftMcq(it.id, "", [], None, media)
  }

  function DraftOfPage(pg: LoadedPage): (d: DraftPage)
    ensures d.id == pg.id && |d.questions| == |pg.questions|
    ensures forall j :: 0 <= j < |d.questions| ==> d.questions[j] == DraftOfItem(pg.questions[j])
  {
    DraftPage(pg.id, MediaUrls(pg.media), OrEmpty(pg.storyPassage), OrEmpty(pg.instructions),
              seq(|pg.questions|, j requires 0 <= j < |pg.questions| => DraftOfItem(pg.questions[j])))
  }

  /** One draft page per loaded page and one draft question per item, in the loaded order. */
  function TransformToDraft(pages: seq<LoadedPage>): (r: seq<DraftPage>)
    ensures |r| == |pages|
    ensures forall i :: 0 <= i < |r| ==> r[i].id == pages[i].id && |r[i].questions| == |pages[i].questions|
    ensures forall i, j :: 0 <= i < |r| && 0 <= j < |r[i].questions| ==>
      r[i].questions[j].id == pages[i].questions[j].id
  {
    seq(|pages|, i requires 0 <= i < |pages| => DraftOfPage(pages[i]))
  }

  // ---------------------------------------------------------------------
  // buildContentSnapshot
  // ---------------------------------------------------------------------

  /** The type tag of the snapshot; an unknown item type is tagged like a multiple-choice one. */
  datatype SnapType = SnapMcq | SnapTfng | SnapShort | SnapMatching

  /**
   * A question of the snapshot. A None field is left out of the JSON
   * (undefined); an inner None is a JSON null.
   */
  datatype SnapQuestion = SnapQuestion(
    qtype: SnapType,
    text: Option<string>,
    options: Option<seq<string>>,
    correctIndex: Option<Option<int>>,
    correctTFNG: Option<Option<string>>,
    shortTemplate: Option<string>,
    matchingTemplate: Option<string>,
    mediaUrls: DraftMedia)

  datatype SnapPage = SnapPage(storyText: string, instructions: string, storyMediaUrls: DraftMedia,
                               questions: seq<SnapQuestion>)

  function SnapTypeOf(t: ItemType): SnapType
  {
    match t
      case MultipleChoice => SnapMcq
      case TrueFalseNotGiven => SnapTfng
      case ShortAnswer => SnapShort
      case MatchingDropdown => SnapMatching
      case OtherType => SnapMcq
  }

  function SnapshotOfItem(it: LoadedItem): (s: SnapQuestion)
    ensures s.text.None? <==> IsText(it.itype)
    ensures s.correctIndex.Some? <==> it.itype == MultipleChoice
    ensures s.correctTFNG.Some? <==> it.itype == TrueFalseNotGiven
    ensures s.shortTemplate.Some? <==> it.itype == ShortAnswer
    ensures s.matchingTemplate.Some? <==> it.itype == MatchingDropdown
    ensures s.options.Some? <==> it.choices.Some?
  {
    SnapQuestion(
      SnapTypeOf(it.itype),
      if IsText(it.itype) then None else Some(it.question),
      if it.choices.Some? then Some(OptionTexts(it.choices)) else None,
      if it.itype == MultipleChoice then Some(if it.correctKey.Some? && it.correctKey.value != "" then KeyIndex(it.correctKey) else None) else None,
      if it.itype == TrueFalseNotGiven then Some(TruthyKey(it.correctKey)) else None,
      if it.itype == ShortAnswer then Some(it.question) else None,
      if it.itype == MatchingDropdown then Some(it.question) else None,
      MediaUrls(it.media))
  }

  function SnapshotOfPage(pg: LoadedPage): SnapPage
  {
    SnapPage(OrEmpty(pg.storyPassage), OrEmpty(pg.instructions), MediaUrls(pg.media),
             seq(|pg.questions|, j requires 0 <= j < |pg.questions| => SnapshotOfItem(pg.questions[j])))
  }

  function BuildContentSnapshot(pages: seq<LoadedPage>): seq<SnapPage>
  {
    seq(|pages|, i requires 0 <= i < |pages| => SnapshotOfPage(pages[i]))
  }

  /**
   * The snapshot holds everything the editor is shown: two items with the
   * same snapshot have the same draft, apart from their ids.
   */
  lemma SnapshotDeterminesDraftItem(a: LoadedItem, b: LoadedItem)
    requires SnapshotOfItem(a) == SnapshotOfItem(b)
    ensures DraftOfItem(a.(id := b.id)) == DraftOfItem(b)
  {
    var sa, sb := SnapshotOfItem(a), SnapshotOfItem(b);
    assert sa.mediaUrls == sb.mediaUrls;
    if a.itype == OtherType {
      assert b.itype != MultipleChoice && !IsText(b.itype) && b.itype != TrueFalseNotGiven;
    } else if a.itype == MultipleChoice {
      assert sb.correctIndex.Some?;
      assert OptionTexts(a.choices) == OptionTexts(b.choices);
    } else if a.itype == MatchingDropdown {
      assert sb.matchingTemplate.Some?;
      assert OptionTexts(a.choices) == OptionTexts(b.choices);
    }
  }

  /** The same at page level: equal snapshots give drafts that differ at most in ids. */
  lemma SnapshotDeterminesDraftPage(a: LoadedPage, b: LoadedPage)
    requires SnapshotOfPage(a) == SnapshotOfPage(b)
    ensures |a.questions| == |b.questions|
    ensures DraftOfPage(a).storyMedia == DraftOfPage(b).storyMedia
    ensures DraftOfPage(a).storyText == DraftOfPage(b).storyText
    ensures DraftOfPage(a).instructions == DraftOfPage(b).instructions
    ensures forall j :: 0 <= j < |a.questions| ==>
      DraftOfItem(a.questions[j].(id := b.questions[j].id)) == DraftOfItem(b.questions[j])
  {
    assert |SnapshotOfPage(a).questions| == |a.questions|;
    forall j | 0 <= j < |a.questions|
      ensures DraftOfItem(a.questions[j].(id := b.questions[j].id)) == DraftOfItem(b.questions[j])
    {
      assert SnapshotOfPage(a).questions[j] == SnapshotOfItem(a.questions[j]);
      assert SnapshotOfPage(b).questions[j] == SnapshotOfItem(b.questions[j]);
      SnapshotDeterminesDraftItem(a.questions[j], b.questions[j]);
    }
  }

  // ---------------------------------------------------------------------
  // computeContentHash
  // ---------------------------------------------------------------------

  /** A UTF-16 code unit of the serialised snapshot. */
  type CodeUnit = bv16

  const HashSeed: bv32 := 5381

  /** One step of the hash: ((h << 5) + h) ^ c, kept to 32 bits. */
  function HashStep(h: bv32, c: CodeUnit): bv32
  {
    (h * 33) ^ (c as bv32)
  }

  /** The hash of a code-unit sequence, one step per unit from the seed. */
  function HashOf(units: seq<CodeUnit>): bv32
  {
    if |units| == 0 then HashSeed else HashStep(HashOf(units[..|units| - 1]), units[|units| - 1])
  }

  /** 33 is odd, so multiplying by it loses nothing modulo 2^32. */
  lemma HashStepInjective(h1: bv32, h2: bv32, c1: CodeUnit, c2: CodeUnit)
    ensures HashStep(h1, c1) == HashStep(h2, c2) ==> (h1 == h2 <==> c1 == c2)
  {
    assert h1 * 33 == (h1 << 5) + h1;
    assert h2 * 33 == (h2 << 5) + h2;
  }

  /**
   * Two inputs of the same length that differ in exactly one code unit
   * never hash alike: an edit of a single character always changes the
   * hash.
   */
  lemma {:induction false} HashDetectsOneEdit(a: seq<CodeUnit>, b: seq<CodeUnit>, i: nat)
    requires |a| == |b| && i < |a| && a[i] != b[i]
    requires forall j :: 0 <= j < |a| && j != i ==> a[j] == b[j]
    ensures HashOf(a) != HashOf(b)
    decreases |a|
  {
    var n := |a| - 1;
    if i == n {
      assert a[..n] == b[..n];
      HashStepInjective(HashOf(a[..n]), HashOf(b[..n]), a[n], b[n]);
    } else {
      HashDetectsOneEdit(a[..n], b[..n], i);
      HashStepInjective(HashOf(a[..n]), HashOf(b[..n]), a[n], b[n]);
    }
  }

  /** Lower-case hexadecimal digit of 0..15. */
  function HexDigit(d: nat): (c: char)
    requires d < 16
  {
    if d < 10 then '0' + d as char else 'a' + (d - 10) as char
  }

  function HexDigitValue(c: char): int
  {
    if '0' <= c <= '9' then c as int - '0' as int
    else if 'a' <= c <= 'f' then c as int - 'a' as int + 10
    else -1
  }

  /** Number.prototype.toString(16) of a non-negative integer: no leading zeros. */
  function Hex(n: nat): (s: string)
    ensures |s| >= 1
    ensures forall i :: 0 <= i < |s| ==> 0 <= HexDigitValue(s[i]) < 16
    ensures n > 0 ==> s[0] != '0'
  {
    if n < 16 then [HexDigit(n)] else Hex(n / 16) + [HexDigit(n % 16)]
  }

  /** The value of a string of lower-case hex digits. */
  function HexValue(s: string): int
  {
    if |s| == 0 then 0 else HexValue(s[..|s| - 1]) * 16 + HexDigitValue(s[|s| - 1])
  }

  /** The printed hash reads back as the hash. */
  lemma {:induction false} HexRoundTrip(n: nat)
    ensures HexValue(Hex(n)) == n
    decreases n
  {
    if n >= 16 {
      HexRoundTrip(n / 16);
      var s := Hex(n);
      assert s[..|s| - 1] == Hex(n / 16);
    }
  }

  /** A 32-bit hash prints as one to eight digits. */
  lemma {:induction false} HexLength(n: nat, k: nat)
    requires n < Pow16(k) && k >= 1
    ensures |Hex(n)| <= k
    decreases k
  {
    if n >= 16 {
      assert k >= 2;
      HexLength(n / 16, k - 1);
    }
  }

  function Pow16(k: nat): nat
  {
    if k == 0 then 1 else 16 * Pow16(k - 1)
  }

  /**
   * computeContentHash: the hash of the serialised snapshot, printed as
   * unsigned hexadecimal. json stands for JSON.stringify of the snapshot.
   */
  method ComputeContentHash(json: seq<CodeUnit>) returns (hex: string)
    ensures hex == Hex(HashOf(json) as nat)
    ensures HexValue(hex) == HashOf(json) as int
    ensures 1 <= |hex| <= 8
  {
    var h := HashSeed;
    for i := 0 to |json|
      invariant h == HashOf(json[..i])
    {
      assert json[..i + 1][..i] == json[..i];
      h := HashStep(h, json[i]);
    }
    assert json[..|json|] == json;
    hex := Hex(h as nat);
    HexRoundTrip(h as nat);
    assert Pow16(8) == 0x1_0000_0000;
    HexLength(h as nat, 8);
  }
}

/**
 * The title-casing that registration and the account update apply to a
 * full name and a place of birth: the text is split at runs of white space
 * (split(/\s+/)), each word becomes its first character upper-cased and the
 * rest lower-cased, the words are joined by single spaces, and the result
 * is trimmed. Case mapping is ASCII-only here.
 */
module NameCase {
  import opened Common

  /** No white space anywhere in s. */
  predicate NoSpace(s: string)
  {
    forall i :: 0 <= i < |s| ==> !IsJsSpace(s[i])
  }

  /** No white space at either end of s. */
  predicate Trimmed(s: string)
  {
    |s| == 0 || (!IsJsSpace(s[0]) && !IsJsSpace(s[|s| - 1]))
  }

  /** The index of the first white-space character of s, if any. */
  function FirstSpace(s: string): (r: Option<nat>)
    ensures r.None? <==> NoSpace(s)
    ensures r.Some? ==> r.value < |s| && IsJsSpace(s[r.value]) && NoSpace(s[..r.value])
  {
    if |s| == 0 then None
    else if IsJsSpace(s[0]) then Some(0)
    else match FirstSpace(s[1..])
      case None => None
      case Some(k) =>
        assert s[..k + 1] == [s[0]] + s[1..][..k];
        Some(k + 1)
  }

  /** The end of the run of white space that starts at i. */
  function RunEnd(s: string, i: nat): (j: nat)
    requires i <= |s|
    ensures i <= j <= |s|
    ensures forall k :: i <= k < j ==> IsJsSpace(s[k])
    ensures j < |s| ==> !IsJsSpace(s[j])
    decreases |s| - i
  {
    if i < |s| && IsJsSpace(s[i]) then RunEnd(s, i + 1) else i
  }

  /** s.split(/\s+/): the pieces between maximal runs of white space. */
  function SplitWs(s: string): (r: seq<string>)
    ensures |r| >= 1
    ensures forall k :: 0 <= k < |r| ==> NoSpace(r[k])
    decreases |s|
  {
    match FirstSpace(s)
    case None => [s]
    case Some(i) => [s[..i]] + SplitWs(s[RunEnd(s, i)..])
  }

  /** w ? w[0].toUpperCase() + w.slice(1).toLowerCase() : ''. */
  function CapWord(w: string): (r: string)
    ensures |r| == |w|
  {
    if |w| == 0 then "" else [UpperChar(w[0])] + Lower(w[1..])
  }

  function CapWords(ws: seq<string>): (r: seq<string>)
    ensures |r| == |ws|
    ensures forall k :: 0 <= k < |ws| ==> r[k] == CapWord(ws[k])
  {
    if |ws| == 0 then [] else [CapWord(ws[0])] + CapWords(ws[1..])
  }

  /** The title-cased text; the result never has white space at either end. */
  function TitleCase(s: string): (r: string)
    ensures Trimmed(r)
  {
    Trim(Join(CapWords(SplitWs(s)), " "))
  }

  /** Case mapping never turns a character into white space or back. */
  lemma CaseKeepsSpace(c: char)
    ensures IsJsSpace(UpperChar(c)) <==> IsJsSpace(c)
    ensures IsJsSpace(LowerChar(c)) <==> IsJsSpace(c)
  {
  }

  /** A capitalised word is a word: non-empty, free of white space. */
  lemma CapWordIsWord(w: string)
    requires NoSpace(w)
    ensures NoSpace(CapWord(w))
  {
    if |w| > 0 {
      CaseKeepsSpace(w[0]);
      forall k | 0 <= k < |w| - 1 ensures !IsJsSpace(Lower(w[1..])[k]) {
        CaseKeepsSpace(w[1..][k]);
      }
    }
  }

  /** Capitalising twice is capitalising once. */
  lemma CapWordIdempotent(w: string)
    ensures CapWord(CapWord(w)) == CapWord(w)
  {
    if |w| > 0 {
      var t := Lower(w[1..]);
      assert CapWord(w)[1..] == t;
      assert Lower(t) == t;
    }
  }

  /** The words of text without white space at its ends are never empty. */
  lemma {:induction false} WordsOfTrimmed(s: string)
    requires |s| > 0 && Trimmed(s)
    ensures forall k :: 0 <= k < |SplitWs(s)| ==> |SplitWs(s)[k]| > 0
    decreases |s|
  {
    match FirstSpace(s)
    case None =>
    case Some(i) =>
      var j := RunEnd(s, i);
      assert j < |s|;
      var rest := s[j..];
      assert rest[0] == s[j] && rest[|rest| - 1] == s[|s| - 1];
      WordsOfTrimmed(rest);
      assert SplitWs(s) == [s[..i]] + SplitWs(rest);
  }

  /** A word: non-empty and free of white space. */
  predicate Words(ws: seq<string>)
  {
    forall k :: 0 <= k < |ws| ==> |ws[k]| > 0 && NoSpace(ws[k])
  }

  /** Words joined by single spaces split back into the same words. */
  lemma {:induction false} SplitJoin(ws: seq<string>)
    requires |ws| >= 1 && Words(ws)
    ensures SplitWs(Join(ws, " ")) == ws
    decreases |ws|
  {
    if |ws| == 1 {
      assert Join(ws, " ") == ws[0];
    } else {
      var w := ws[0];
      var rest := Join(ws[1..], " ");
      var s := Join(ws, " ");
      assert s == w + " " + rest;
      JoinStartsWithWord(ws[1..]);
      assert s[|w|] == ' ';
      assert s[..|w|] == w;
      assert NoSpace(s[..|w|]);
      FirstSpaceAt(s, |w|);
      assert s[|w| + 1] == rest[0];
      assert RunEnd(s, |w| + 1) == |w| + 1;
      assert RunEnd(s, |w|) == |w| + 1;
      assert s[|w| + 1..] == rest;
      SplitJoin(ws[1..]);
      assert ws == [w] + ws[1..];
    }
  }

  /** When the first white space is at i, FirstSpace finds i. */
  lemma FirstSpaceAt(s: string, i: nat)
    requires i < |s| && IsJsSpace(s[i]) && NoSpace(s[..i])
    ensures FirstSpace(s) == Some(i)
  {
  }

  /** Words joined by single spaces start and end with a word character. */
  lemma {:induction false} JoinStartsWithWord(ws: seq<string>)
    requires |ws| >= 1 && Words(ws)
    ensures |Join(ws, " ")| > 0 && Trimmed(Join(ws, " "))
    decreases |ws|
  {
    if |ws| > 1 {
      JoinStartsWithWord(ws[1..]);
      var rest := Join(ws[1..], " ");
      assert Join(ws, " ") == ws[0] + " " + rest;
      assert Join(ws, " ")[0] == ws[0][0];
    }
  }

  /** Capitalised words are words. */
  lemma CapWordsAreWords(ws: seq<string>)
    requires Words(ws)
    ensures Words(CapWords(ws))
  {
    forall k | 0 <= k < |ws| ensures |CapWords(ws)[k]| > 0 && NoSpace(CapWords(ws)[k]) {
      CapWordIsWord(ws[k]);
    }
  }

  /**
   * For text without white space at its ends (what the schema's trim
   * hands over), the result is the capitalised words joined by single
   * spaces, and its words are exactly those capitalised words.
   */
  lemma TitleCaseOfTrimmed(s: string)
    requires |s| > 0 && Trimmed(s)
    ensures TitleCase(s) == Join(CapWords(SplitWs(s)), " ")
    ensures SplitWs(TitleCase(s)) == CapWords(SplitWs(s))
  {
    var ws := SplitWs(s);
    WordsOfTrimmed(s);
    assert Words(ws);
    CapWordsAreWords(ws);
    JoinStartsWithWord(CapWords(ws));
    TrimOfTrimmed(Join(CapWords(ws), " "));
    SplitJoin(CapWords(ws));
  }

  lemma CapWordsIdempotent(ws: seq<string>)
    ensures CapWords(CapWords(ws)) == CapWords(ws)
  {
    forall k | 0 <= k < |ws| ensures CapWords(CapWords(ws))[k] == CapWords(ws)[k] {
      CapWordIdempotent(ws[k]);
    }
  }

  /** Text with a word in it keeps a word. */
  lemma TitleCaseNonEmpty(s: string)
    requires |s| > 0 && Trimmed(s)
    ensures |TitleCase(s)| > 0
  {
    var ws := SplitWs(s);
    WordsOfTrimmed(s);
    CapWordsAreWords(ws);
    JoinStartsWithWord(CapWords(ws));
    TitleCaseOfTrimmed(s);
  }

  /** Title-casing a title-cased name changes nothing. */
  lemma TitleCaseIdempotent(s: string)
    requires Trimmed(s)
    ensures TitleCase(TitleCase(s)) == TitleCase(s)
  {
    if |s| == 0 {
      assert SplitWs(s) == [s];
    } else {
      var t := TitleCase(s);
      TitleCaseOfTrimmed(s);
      TitleCaseNonEmpty(s);
      TitleCaseOfTrimmed(t);
      CapWordsIdempotent(SplitWs(s));
    }
  }
}

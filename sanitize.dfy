/**
 * stripHtml: markup is removed from user text by deleting every tag, then
 * decoding six HTML entities, each in one left-to-right pass, and trimming.
 */
module Sanitize {
  import opened Common

  /** No '<' is followed anywhere later by a '>': no tag is left. */
  predicate NoTag(s: string)
  {
    forall i, j :: 0 <= i < j < |s| && s[i] == '<' ==> s[j] != '>'
  }

  /**
   * s.replace(/<[^>]*>/g, ''): scanning left to right, a '<' with a '>'
   * somewhere after it is removed together with everything up to the first
   * such '>'; a '<' with no '>' after it stays.
   */
  function RemoveTags(s: string): (r: string)
    ensures |r| <= |s|
    ensures forall k :: 0 <= k < |r| ==> r[k] in s
    ensures NoTag(r)
    decreases |s|
  {
    if |s| == 0 then ""
    else if s[0] == '<' && Contains(s[1..], '>') then
      var close := IndexOf(s[1..], '>').value;
      var rest := s[1..][close + 1..];
      var r := RemoveTags(rest);
      assert forall k :: 0 <= k < |r| ==> r[k] in s by {
        forall k | 0 <= k < |r| ensures r[k] in s {
          var m :| 0 <= m < |rest| && rest[m] == r[k];
          assert s[close + 2 + m] == rest[m];
        }
      }
      r
    else
      var tail := RemoveTags(s[1..]);
      var r := [s[0]] + tail;
      assert forall k :: 0 <= k < |tail| ==> tail[k] in s by {
        forall k | 0 <= k < |tail| ensures tail[k] in s {
          var m :| 0 <= m < |s[1..]| && s[1..][m] == tail[k];
          assert s[m + 1] == tail[k];
        }
      }
      assert forall k :: 0 <= k < |tail| ==> tail[k] in s[1..];
      if s[0] == '<' then
        assert forall j :: 0 <= j < |tail| ==> tail[j] != '>';
        assert forall j :: 0 < j < |r| ==> r[j] == tail[j - 1];
        r
      else
        assert forall j :: 0 < j < |r| ==> r[j] == tail[j - 1];
        r
  }

  /** A complete tag at the front disappears with everything inside it. */
  lemma TagRemoved(inside: string, rest: string)
    requires !Contains(inside, '>')
    ensures RemoveTags("<" + inside + ">" + rest) == RemoveTags(rest)
  {
    var s := "<" + inside + ">" + rest;
    assert s[1..] == inside + ">" + rest;
    assert s[1..][|inside|] == '>';
    var close := IndexOf(s[1..], '>').value;
    assert close == |inside| by {
      assert forall k :: 0 <= k < |inside| ==> s[1..][k] == inside[k];
    }
    assert s[1..][close + 1..] == rest;
  }

  /** Text without tags comes back unchanged, so removing tags twice is removing them once. */
  lemma {:induction false} RemoveTagsOfTagless(s: string)
    requires NoTag(s)
    ensures RemoveTags(s) == s
    decreases |s|
  {
    if |s| > 0 {
      assert NoTag(s[1..]) by {
        forall i, j | 0 <= i < j < |s[1..]| && s[1..][i] == '<' ensures s[1..][j] != '>' {
          assert s[i + 1] == '<';
        }
      }
      RemoveTagsOfTagless(s[1..]);
    }
  }

  lemma RemoveTagsIdempotent(s: string)
    ensures RemoveTags(RemoveTags(s)) == RemoveTags(s)
  {
    RemoveTagsOfTagless(RemoveTags(s));
  }

  /**
   * s.replace(/pat/g, rep) for a literal pattern: the leftmost occurrence is
   * replaced and the scan resumes after it, so replacements never overlap
   * and the text a replacement produces is not looked at again.
   */
  function ReplaceAll(s: string, pat: string, rep: string): string
    requires |pat| > 0
    decreases |s|
  {
    if |s| < |pat| then s
    else if s[..|pat|] == pat then rep + ReplaceAll(s[|pat|..], pat, rep)
    else [s[0]] + ReplaceAll(s[1..], pat, rep)
  }

  /** Text that does not hold the pattern is left alone. */
  lemma {:induction false} ReplaceAllAbsent(s: string, pat: string, rep: string)
    requires |pat| > 0 && !HasSubstring(s, pat)
    ensures ReplaceAll(s, pat, rep) == s
    decreases |s|
  {
    if |s| >= |pat| {
      assert !OccursAt(s, pat, 0);
      assert !HasSubstring(s[1..], pat) by {
        forall i | 0 <= i <= |s[1..]| ensures !OccursAt(s[1..], pat, i) {
          assert !OccursAt(s, pat, i + 1);
          if i + |pat| <= |s[1..]| {
            assert s[1..][i..i + |pat|] == s[i + 1..i + 1 + |pat|];
          }
        }
      }
      ReplaceAllAbsent(s[1..], pat, rep);
    }
  }

  /** Each occurrence in text made of occurrences and pattern-free pieces is replaced once. */
  lemma ReplaceAllFront(pat: string, rep: string, rest: string)
    requires |pat| > 0
    ensures ReplaceAll(pat + rest, pat, rep) == rep + ReplaceAll(rest, pat, rep)
  {
    assert (pat + rest)[..|pat|] == pat;
    assert (pat + rest)[|pat|..] == rest;
  }

  /** The six entities, decoded in this order, each in a single pass. */
  function DecodeEntities(s: string): string
  {
    var a := ReplaceAll(s, "&nbsp;", " ");
    var b := ReplaceAll(a, "&lt;", "<");
    var c := ReplaceAll(b, "&gt;", ">");
    var d := ReplaceAll(c, "&amp;", "&");
    var e := ReplaceAll(d, "&quot;", "\"");
    ReplaceAll(e, "&#039;", "'")
  }

  /** stripHtml: null and undefined come back as they are; text loses its tags, then its entities, then its surrounding space. */
  function StripHtml(input: Option<string>): (r: Option<string>)
    ensures input.None? <==> r.None?
    ensures r.Some? ==> |r.value| == 0 || (!IsJsSpace(r.value[0]) && !IsJsSpace(r.value[|r.value| - 1]))
  {
    match input
    case None => None
    case Some(s) => Some(Trim(DecodeEntities(RemoveTags(s))))
  }

  /** Text with no '<' and no '&' is only trimmed. */
  lemma PlainTextIsTrimmed(s: string)
    requires !Contains(s, '<') && !Contains(s, '&')
    ensures StripHtml(Some(s)) == Some(Trim(s))
  {
    RemoveTagsOfTagless(s);
    EntityAbsent(s, "&nbsp;", " ");
    EntityAbsent(s, "&lt;", "<");
    EntityAbsent(s, "&gt;", ">");
    EntityAbsent(s, "&amp;", "&");
    EntityAbsent(s, "&quot;", "\"");
    EntityAbsent(s, "&#039;", "'");
  }

  /** Text without '&' holds no entity, so decoding one leaves it alone. */
  lemma EntityAbsent(s: string, entity: string, rep: string)
    requires !Contains(s, '&') && |entity| > 0 && entity[0] == '&'
    ensures ReplaceAll(s, entity, rep) == s
  {
    assert !HasSubstring(s, entity) by {
      forall i | 0 <= i <= |s| && i + |entity| <= |s| ensures !OccursAt(s, entity, i) {
        assert s[i..i + |entity|][0] == s[i];
      }
    }
    ReplaceAllAbsent(s, entity, rep);
  }

  /** A string whose only '&' is its first character holds an entity only as its prefix. */
  lemma LoneAmpersand(s: string, entity: string, rep: string)
    requires |s| > 0 && s[0] == '&' && !Contains(s[1..], '&')
    requires |entity| > 1 && entity[0] == '&'
    requires |s| < |entity| || s[1] != entity[1]
    ensures ReplaceAll(s, entity, rep) == s
  {
    EntityAbsent(s[1..], entity, rep);
    if |s| >= |entity| {
      assert s[..|entity|][1] != entity[1];
      assert s == [s[0]] + s[1..];
    }
  }

  /** An entity at the front, followed by text without '&', is decoded once. */
  lemma EntityInFront(entity: string, rep: string, rest: string)
    requires |entity| > 0 && entity[0] == '&' && !Contains(rest, '&')
    ensures ReplaceAll(entity + rest, entity, rep) == rep + rest
  {
    ReplaceAllFront(entity, rep, rest);
    EntityAbsent(rest, entity, rep);
  }

  lemma SplitAmp(u: string)
    ensures "&" + ("lt;" + u) == "&lt;" + u
  {
  }

  /** '&amp;lt;' decodes to '&lt;' and no further: amp comes after lt. */
  lemma EscapedEntityStops(u: string)
    requires !Contains(u, '&') && !Contains(u, '<')
    ensures StripHtml(Some("&amp;lt;" + u)) == Some(Trim("&lt;" + u))
  {
    var s := "&amp;lt;" + u;
    assert !Contains(s, '<');
    RemoveTagsOfTagless(s);
    DecodeEscapedLt(u);
  }

  lemma DecodeEscapedLt(u: string)
    requires !Contains(u, '&')
    ensures DecodeEntities("&amp;lt;" + u) == "&lt;" + u
  {
    var s := "&amp;lt;" + u;
    assert s == "&amp;" + ("lt;" + u);
    assert s[1..] == "amp;lt;" + u;
    assert !Contains(s[1..], '&');
    assert s[1] == 'a';
    LoneAmpersand(s, "&nbsp;", " ");
    LoneAmpersand(s, "&lt;", "<");
    LoneAmpersand(s, "&gt;", ">");
    EntityInFront("&amp;", "&", "lt;" + u);
    var d := "&" + ("lt;" + u);
    SplitAmp(u);
    assert d[1..] == "lt;" + u;
    LoneAmpersand(d, "&quot;", "\"");
    LoneAmpersand(d, "&#039;", "'");
  }

  lemma SplitQuot(u: string)
    ensures "&" + ("quot;" + u) == "&quot;" + u
  {
  }

  /** '&amp;quot;' decodes all the way to '"': quot comes after amp. */
  lemma EscapedQuoteDecodes(u: string)
    requires !Contains(u, '&') && !Contains(u, '<')
    ensures StripHtml(Some("&amp;quot;" + u)) == Some(Trim("\"" + u))
  {
    var s := "&amp;quot;" + u;
    assert !Contains(s, '<');
    RemoveTagsOfTagless(s);
    DecodeEscapedQuot(u);
  }

  lemma DecodeEscapedQuot(u: string)
    requires !Contains(u, '&')
    ensures DecodeEntities("&amp;quot;" + u) == "\"" + u
  {
    var s := "&amp;quot;" + u;
    assert s == "&amp;" + ("quot;" + u);
    assert s[1..] == "amp;quot;" + u;
    assert !Contains(s[1..], '&');
    assert s[1] == 'a';
    LoneAmpersand(s, "&nbsp;", " ");
    LoneAmpersand(s, "&lt;", "<");
    LoneAmpersand(s, "&gt;", ">");
    EntityInFront("&amp;", "&", "quot;" + u);
    SplitQuot(u);
    EntityInFront("&quot;", "\"", u);
    var e := "\"" + u;
    assert !Contains(e, '&');
    EntityAbsent(e, "&#039;", "'");
  }

  /** Text without '&' passes through a decoding pass untouched. */
  lemma {:induction false} PlainPrefix(v: string, rest: string, entity: string, rep: string)
    requires !Contains(v, '&') && |entity| > 0 && entity[0] == '&'
    ensures ReplaceAll(v + rest, entity, rep) == v + ReplaceAll(rest, entity, rep)
    decreases |v|
  {
    if |v| > 0 {
      var s := v + rest;
      assert s[1..] == v[1..] + rest;
      assert !Contains(v[1..], '&') by {
        assert forall i :: 0 <= i < |v[1..]| ==> v[1..][i] == v[i + 1];
      }
      PlainPrefix(v[1..], rest, entity, rep);
      if |s| >= |entity| {
        assert s[..|entity|][0] == v[0];
      } else {
        ReplaceAllShort(rest, entity, rep);
      }
    } else {
      assert v + rest == rest;
    }
  }

  lemma ReplaceAllShort(s: string, entity: string, rep: string)
    requires 0 < |entity| && |s| < |entity|
    ensures ReplaceAll(s, entity, rep) == s
  {
  }

  /** An entity other than the one decoded is stepped over. */
  lemma SkipEntity(e: string, rest: string, entity: string, rep: string)
    requires |e| > 1 && e[0] == '&' && !Contains(e[1..], '&')
    requires |entity| > 1 && entity[0] == '&' && e[1] != entity[1]
    ensures ReplaceAll(e + rest, entity, rep) == e + ReplaceAll(rest, entity, rep)
  {
    var s := e + rest;
    assert s[1..] == e[1..] + rest;
    PlainPrefix(e[1..], rest, entity, rep);
    if |s| >= |entity| {
      assert s[..|entity|][1] == e[1];
      assert [s[0]] + (e[1..] + ReplaceAll(rest, entity, rep)) == e + ReplaceAll(rest, entity, rep);
    } else {
      ReplaceAllShort(rest, entity, rep);
    }
  }

  /** An escaped tag is not a tag when tags are removed, so it comes out as one. */
  lemma EscapedTagSurvives(u: string)
    requires !Contains(u, '&') && !Contains(u, '<')
    ensures StripHtml(Some("&lt;" + u + "&gt;")) == Some(Trim("<" + u + ">"))
  {
    var s := "&lt;" + u + "&gt;";
    assert !Contains(s, '<');
    RemoveTagsOfTagless(s);
    DecodeEscapedTag(u);
  }

  lemma DecodeEscapedTag(u: string)
    requires !Contains(u, '&')
    ensures DecodeEntities("&lt;" + u + "&gt;") == "<" + u + ">"
  {
    var c := "<" + u + ">";
    TagPassNbsp(u);
    TagPassLt(u);
    TagPassGt(u);
    assert !Contains(c, '&');
    EntityAbsent(c, "&amp;", "&");
    EntityAbsent(c, "&quot;", "\"");
    EntityAbsent(c, "&#039;", "'");
  }

  lemma TagPassNbsp(u: string)
    requires !Contains(u, '&')
    ensures ReplaceAll("&lt;" + u + "&gt;", "&nbsp;", " ") == "&lt;" + u + "&gt;"
  {
    assert "&lt;" + u + "&gt;" == "&lt;" + (u + "&gt;");
    SkipEntity("&lt;", u + "&gt;", "&nbsp;", " ");
    PlainPrefix(u, "&gt;", "&nbsp;", " ");
    ReplaceAllShort("&gt;", "&nbsp;", " ");
  }

  lemma TagPassLt(u: string)
    requires !Contains(u, '&')
    ensures ReplaceAll("&lt;" + u + "&gt;", "&lt;", "<") == "<" + u + "&gt;"
  {
    assert "&lt;" + u + "&gt;" == "&lt;" + (u + "&gt;");
    ReplaceAllFront("&lt;", "<", u + "&gt;");
    PlainPrefix(u, "&gt;", "&lt;", "<");
    LoneAmpersand("&gt;", "&lt;", "<");
    assert "<" + (u + "&gt;") == "<" + u + "&gt;";
  }

  lemma TagPassGt(u: string)
    requires !Contains(u, '&')
    ensures ReplaceAll("<" + u + "&gt;", "&gt;", ">") == "<" + u + ">"
  {
    assert !Contains("<" + u, '&');
    PlainPrefix("<" + u, "&gt;", "&gt;", ">");
    ReplaceAllFront("&gt;", ">", "");
    assert "&gt;" + "" == "&gt;";
    ReplaceAllShort("", "&gt;", ">");
  }
}

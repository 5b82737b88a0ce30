/**
 * The bracket blanks of a question template. Every route that counts or
 * extracts blanks uses the regular expression /\[[^\]]*\]/g: a '[' that has
 * a ']' somewhere after it opens a blank, the first following ']' closes
 * it, and matching resumes after that ']'.
 */
module Blanks {
  import opened Common

  /** The text between the brackets of each blank, left to right. */
  function Blanks(s: string): (r: seq<string>)
    ensures |r| <= |s|
    ensures forall i :: 0 <= i < |r| ==> !Contains(r[i], ']')
    decreases |s|
  {
    if |s| == 0 then []
    else if s[0] == '[' then
      match IndexOf(s[1..], ']')
        case None => Blanks(s[1..])
        case Some(j) =>
          assert !Contains(s[1..j + 1], ']') by {
            assert forall i :: 0 <= i < j ==> s[1..][i] != ']';
          }
          [s[1..j + 1]] + Blanks(s[j + 2..])
    else Blanks(s[1..])
  }

  /** How many blanks the template has. */
  function BlankCount(s: string): nat
  {
    |Blanks(s)|
  }

  /**
   * A template written as text pieces with one blank between consecutive
   * pieces: pieces[0] [blanks[0]] pieces[1] ... [blanks[n-1]] pieces[n].
   */
  function Fill(pieces: seq<string>, blanks: seq<string>): string
    requires |pieces| == |blanks| + 1
    decreases |blanks|
  {
    if |blanks| == 0 then pieces[0]
    else pieces[0] + "[" + blanks[0] + "]" + Fill(pieces[1..], blanks[1..])
  }

  /** Text without '[' contributes no blank. */
  lemma {:induction false} BlanksSkipPlain(t: string, rest: string)
    requires !Contains(t, '[')
    ensures Blanks(t + rest) == Blanks(rest)
    decreases |t|
  {
    if |t| > 0 {
      assert t[0] != '[';
      assert (t + rest)[1..] == t[1..] + rest;
      assert !Contains(t[1..], '[') by {
        forall i | 0 <= i < |t[1..]| ensures t[1..][i] != '[' {
          assert t[1..][i] == t[i + 1];
        }
      }
      BlanksSkipPlain(t[1..], rest);
    } else {
      assert t + rest == rest;
    }
  }

  /** A bracketed blank is read back as its contents. */
  lemma BlanksOneBlank(b: string, rest: string)
    requires !Contains(b, ']')
    ensures Blanks("[" + b + "]" + rest) == [b] + Blanks(rest)
  {
    var s := "[" + b + "]" + rest;
    assert s[1..] == b + "]" + rest;
    assert (b + "]" + rest)[|b|] == ']';
    assert forall i :: 0 <= i < |b| ==> (b + "]" + rest)[i] == b[i];
    var j := IndexOf(s[1..], ']');
    assert j == Some(|b|);
    assert s[1..|b| + 1] == b;
    assert s[|b| + 2..] == rest;
  }

  /**
   * Reading the blanks of a filled template gives back exactly the blanks
   * written into it, in order, provided the text pieces hold no '[' and the
   * blanks hold no ']'.
   */
  lemma {:induction false} BlanksOfFill(pieces: seq<string>, blanks: seq<string>)
    requires |pieces| == |blanks| + 1
    requires forall i :: 0 <= i < |pieces| ==> !Contains(pieces[i], '[')
    requires forall i :: 0 <= i < |blanks| ==> !Contains(blanks[i], ']')
    ensures Blanks(Fill(pieces, blanks)) == blanks
    ensures BlankCount(Fill(pieces, blanks)) == |blanks|
    decreases |blanks|
  {
    if |blanks| == 0 {
      BlanksSkipPlain(pieces[0], "");
      assert pieces[0] + "" == pieces[0];
    } else {
      var tail := Fill(pieces[1..], blanks[1..]);
      var blank := "[" + blanks[0] + "]" + tail;
      assert Blanks(tail) == blanks[1..] by {
        BlanksOfFill(pieces[1..], blanks[1..]);
      }
      assert Blanks(blank) == blanks by {
        BlanksOneBlank(blanks[0], tail);
        assert [blanks[0]] + blanks[1..] == blanks;
      }
      assert Fill(pieces, blanks) == pieces[0] + blank by {
        AppendAssoc(pieces[0], "[" + blanks[0] + "]", tail);
      }
      BlanksSkipPlain(pieces[0], blank);
    }
  }

  lemma AppendAssoc(a: string, b: string, c: string)
    ensures a + b + c == a + (b + c)
  {
  }

  /** An unclosed '[' opens no blank. */
  lemma UnclosedExample()
    ensures BlankCount("a [b") == 0
  {
    assert IndexOf("b", ']') == None;
    assert Blanks("[b") == Blanks("b");
  }

  /** The two blanks of a sample template, read in order. */
  lemma TemplateExample()
    ensures Blanks("I [am] a [student].") == ["am", "student"]
  {
    var pieces := ["I ", " a ", "."];
    var blanks := ["am", "student"];
    assert Fill(pieces, blanks) == "I [am] a [student].";
    forall i | 0 <= i < |pieces| ensures !Contains(pieces[i], '[') {
      assert forall k :: 0 <= k < |pieces[i]| ==> pieces[i][k] != '[';
    }
    forall i | 0 <= i < |blanks| ensures !Contains(blanks[i], ']') {
      assert forall k :: 0 <= k < |blanks[i]| ==> blanks[i][k] != ']';
    }
    BlanksOfFill(pieces, blanks);
  }
}

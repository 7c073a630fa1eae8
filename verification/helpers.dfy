/**
 The reply-extraction helpers of helpers.py: `remove_prefix` and
 `get_gpt_first_message`, which cut the single utterance the bot posts out of
 the raw text the generation service returns.
 */
module Helpers {
  import opened Text

  /** `remove_prefix(text, prefix)`: drop `prefix` from the front of `text`
      when it is there, otherwise leave `text` alone. */
  function RemovePrefix(text: string, prefix: string): (r: string)
    ensures StartsWith(text, prefix) ==> prefix + r == text
    ensures !StartsWith(text, prefix) ==> r == text
    ensures SliceAt(r, text, |text| - |r|)
  {
    if StartsWith(text, prefix) then
      assert text == prefix + text[|prefix|..];
      text[|prefix|..]
    else
      text
  }

  /** Removing a prefix that was just put in front gives back the rest,
      whatever the prefix (the empty one included). */
  lemma RemovePrefixOfConcat(prefix: string, rest: string)
    ensures RemovePrefix(prefix + rest, prefix) == rest
  {
    assert (prefix + rest)[..|prefix|] == prefix;
  }

  /** The first `\n`-separated line of `s`. */
  function FirstLine(s: string): (line: string)
    ensures '\n' !in line
    ensures StartsWith(s, line)
    ensures |line| < |s| ==> s[|line|] == '\n'
  {
    FirstLineIsPrefix(s);
    Split(s, '\n')[0]
  }

  lemma FirstLineIsPrefix(s: string)
    ensures var k := IndexOf(s, '\n'); Split(s, '\n')[0] == s[..k]
  {
  }

  /** `get_gpt_first_message(gpt_response, user_name)`: one line with no
      whitespace at either end, cut out of the generated text; nothing at
      all when the generated text is blank. */
  function FirstMessage(response: string, userName: string): (r: string)
    ensures '\n' !in r && IsTrimmed(r)
    ensures IsSliceOf(r, response)
    ensures AllWhitespace(response) ==> r == []
  {
    var line := FirstLine(Strip(response));
    FirstLinePieces(response);
    var r := ReplyOfLine(line, userName);
    SliceTrans(r, line, response);
    r
  }

  /** The first line of the trimmed text is a piece of the text, and it is
      empty when the text is blank. */
  lemma FirstLinePieces(response: string)
    ensures IsSliceOf(FirstLine(Strip(response)), response)
    ensures AllWhitespace(response) ==> FirstLine(Strip(response)) == []
  {
    var stripped := Strip(response);
    var line := FirstLine(stripped);
    assert SliceAt(line, stripped, 0);
    SliceTrans(line, stripped, response);
  }

  /** The first line of the trimmed text is empty exactly when the whole
      generated text is blank; otherwise it starts with the text's first
      character that is not whitespace. */
  lemma FirstLineEmpty(response: string)
    ensures FirstLine(Strip(response)) == [] <==> AllWhitespace(response)
    ensures !AllWhitespace(response) ==> exists a ::
      && 0 <= a < |response| && AllWhitespace(response[..a]) && !IsWhitespace(response[a])
      && FirstLine(Strip(response))[0] == response[a]
  {
    var stripped := Strip(response);
    if !AllWhitespace(response) {
      assert !IsWhitespace(stripped[0]);
      assert stripped[0] != '\n';
      var line := FirstLine(stripped);
      assert |line| > 0 && line[0] == stripped[0];
      var a :| SliceAt(stripped, response, a) && AllWhitespace(response[..a]) && AllWhitespace(response[a + |stripped|..]);
      assert stripped[0] == response[a];
    }
  }

  /** The part of `get_gpt_first_message` after the first line is taken:
      both prefix removals, then the final strip. The result is a trimmed
      piece of the line, and nothing when the line is blank. */
  function ReplyOfLine(line: string, userName: string): (r: string)
    ensures IsTrimmed(r)
    ensures IsSliceOf(r, line)
    ensures '\n' !in line ==> '\n' !in r
    ensures AllWhitespace(line) ==> r == []
  {
    var afterName := RemovePrefix(RemovePrefix(line, userName + ":"), userName);
    ReplyPieces(line, userName);
    Strip(afterName)
  }

  lemma ReplyPieces(line: string, userName: string)
    ensures var afterName := RemovePrefix(RemovePrefix(line, userName + ":"), userName);
      && IsSliceOf(Strip(afterName), line)
      && ('\n' !in line ==> '\n' !in Strip(afterName))
      && (AllWhitespace(line) ==> Strip(afterName) == [])
  {
    var afterName := RemovePrefix(RemovePrefix(line, userName + ":"), userName);
    AfterNameIsSlice(line, userName);
    StripOfSlice(afterName, line);
  }

  lemma AfterNameIsSlice(line: string, userName: string)
    ensures IsSliceOf(RemovePrefix(RemovePrefix(line, userName + ":"), userName), line)
  {
    var afterColon := RemovePrefix(line, userName + ":");
    var afterName := RemovePrefix(afterColon, userName);
    assert SliceAt(afterColon, line, |line| - |afterColon|);
    assert SliceAt(afterName, afterColon, |afterColon| - |afterName|);
    SliceTrans(afterName, afterColon, line);
  }

  /** Trimming a piece of a line gives a piece of the line, free of any
      character the line lacks, and nothing when the line is blank. */
  lemma StripOfSlice(t: string, line: string)
    requires IsSliceOf(t, line)
    ensures IsSliceOf(Strip(t), line)
    ensures '\n' !in line ==> '\n' !in Strip(t)
    ensures AllWhitespace(line) ==> Strip(t) == []
  {
    var r := Strip(t);
    SliceTrans(r, t, line);
    if '\n' !in line {
      SliceHasNo(r, line, '\n');
    }
    if AllWhitespace(line) {
      SliceAllWhitespace(t, line);
    }
  }

  /** A line labelled `"{name}:"` loses the label, then one further leading
      `name`, and is then trimmed. */
  lemma ReplyOfLabelledLine(userName: string, rest: string)
    ensures ReplyOfLine(userName + ":" + rest, userName) == Strip(RemovePrefix(rest, userName))
  {
    assert userName + ":" + rest == (userName + ":") + rest;
    RemovePrefixOfConcat(userName + ":", rest);
  }

  /** A line that starts with the name but not with `"{name}:"` loses only
      the name, and is then trimmed. */
  lemma ReplyOfNamePrefixedLine(userName: string, rest: string)
    requires !StartsWith(rest, ":")
    ensures ReplyOfLine(userName + rest, userName) == Strip(rest)
  {
    StartsWithSamePrefix(userName, rest, ":");
    RemovePrefixOfConcat(userName, rest);
  }

  /** Behind a shared prefix, one text starts with another exactly when the
      rests do. */
  lemma StartsWithSamePrefix(p: string, s: string, q: string)
    ensures StartsWith(p + s, p + q) <==> StartsWith(s, q)
  {
    if |q| <= |s| {
      assert (p + s)[..|p + q|] == p + s[..|q|];
      if (p + s)[..|p + q|] == p + q {
        assert s[..|q|] == (p + s[..|q|])[|p|..] == (p + q)[|p|..] == q;
      }
    }
  }

  lemma SliceHasNo(r: string, s: string, c: char)
    requires IsSliceOf(r, s)
    requires c !in s
    ensures c !in r
  {
    var a :| SliceAt(r, s, a);
    forall i | 0 <= i < |r|
      ensures r[i] != c
    {
      assert r[i] == s[a + i];
    }
  }

  lemma SliceAllWhitespace(r: string, s: string)
    requires IsSliceOf(r, s)
    requires AllWhitespace(s)
    ensures AllWhitespace(r)
  {
    var a :| SliceAt(r, s, a);
    forall i | 0 <= i < |r|
      ensures IsWhitespace(r[i])
    {
      assert r[i] == s[a + i];
    }
  }

  lemma SliceTrans(r: string, t: string, s: string)
    requires IsSliceOf(r, t) && IsSliceOf(t, s)
    ensures IsSliceOf(r, s)
  {
    var a :| SliceAt(r, t, a);
    var b :| SliceAt(t, s, b);
    SliceOfSlice(r, t, s, a, b);
  }

  /** A reply that opens with `"{name}:"` loses that label; whatever follows
      loses a further leading `name` (the second `remove_prefix`) and is
      then trimmed. */
  lemma FirstMessageWithLabel(response: string, userName: string, rest: string)
    requires FirstLine(Strip(response)) == userName + ":" + rest
    ensures FirstMessage(response, userName) == Strip(RemovePrefix(rest, userName))
    ensures !StartsWith(rest, userName) ==> FirstMessage(response, userName) == Strip(rest)
  {
    ReplyOfLabelledLine(userName, rest);
  }

  lemma StartsWithShorter(s: string, p: string, q: string)
    ensures StartsWith(s, p + q) ==> StartsWith(s, p)
  {
    if StartsWith(s, p + q) {
      assert s[..|p|] == (p + q)[..|p|];
    }
  }

  /** A first line that does not begin with the name is posted as it
      stands, only trimmed. */
  lemma FirstMessageWithoutName(response: string, userName: string)
    requires !StartsWith(FirstLine(Strip(response)), userName)
    ensures FirstMessage(response, userName) == Strip(FirstLine(Strip(response)))
  {
    StartsWithShorter(FirstLine(Strip(response)), userName, ":");
  }

  /** A first line that starts with the name but not with `"{name}:"` is
      posted without the name: for the name `Al`, the line `"Alice: hi"`
      yields `"ice: hi"`. With `FirstMessageWithLabel` and
      `FirstMessageWithoutName` this covers every first line. */
  lemma FirstMessageWithNamePrefix(response: string, userName: string, rest: string)
    requires FirstLine(Strip(response)) == userName + rest
    requires !StartsWith(rest, ":")
    ensures FirstMessage(response, userName) == Strip(rest)
  {
    ReplyOfNamePrefixedLine(userName, rest);
  }

  /** Because both prefixes are removed in turn, an utterance that itself
      starts with the name right after the colon loses that too: for the
      name `Bob`, the line `"Bob:Bobby"` yields `"by"`, not `"Bobby"`. */
  lemma FirstMessageStripsNameTwice(response: string, userName: string, tail: string)
    requires FirstLine(Strip(response)) == userName + ":" + userName + tail
    ensures FirstMessage(response, userName) == Strip(tail)
  {
    ReplyStripsNameTwice(userName, tail);
  }

  lemma ReplyStripsNameTwice(userName: string, tail: string)
    ensures ReplyOfLine(userName + ":" + userName + tail, userName) == Strip(tail)
  {
    calc {
      ReplyOfLine(userName + ":" + userName + tail, userName);
      { assert userName + ":" + userName + tail == userName + ":" + (userName + tail); }
      ReplyOfLine(userName + ":" + (userName + tail), userName);
      { ReplyOfLabelledLine(userName, userName + tail); }
      Strip(RemovePrefix(userName + tail, userName));
      { RemovePrefixOfConcat(userName, tail); }
      Strip(tail);
    }
  }
}

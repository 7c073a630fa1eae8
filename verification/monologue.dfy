/**
 The parsing and dispatch decision of the `monologue` command in bot.py:
 the generated text is trimmed and cut into lines, each line is split once
 at its first colon into speaker and utterance, the list is cut to
 `max_messages`, and then either every kept line had a colon and all of
 them are sent in order, or one did not and nothing is sent.
 */
module Monologue {
  import opened Wrappers
  import opened Text

  /** The `max_messages` option's default. */
  const DefaultMaxMessages: nat := 25

  /** `token_max_length` the monologue asks of the generation service. */
  const MonologueTokenLimit: nat := 512

  /** One message to post: the webhook display name and the text. */
  datatype Utterance = Utterance(username: string, text: string)

  /** Outcome of the validation: the invalid-response notice, or these
      messages in this order. */
  datatype Decision = Invalid | Send(messages: seq<Utterance>)

  /** `gpt_response.strip().split("\n")`: at least one line, none holding a
      line break, and together they make up the trimmed response. */
  function ResponseLines(response: string): (lines: seq<string>)
    ensures |lines| >= 1
    ensures forall i :: 0 <= i < |lines| ==> '\n' !in lines[i]
    ensures Join(lines, '\n') == Strip(response)
  {
    JoinSplit(Strip(response), '\n');
    Split(Strip(response), '\n')
  }

  /** `[message.split(":", 1) for message in lines]`. */
  function SplitEntries(lines: seq<string>): (entries: seq<seq<string>>)
    ensures |entries| == |lines|
    ensures forall i :: 0 <= i < |lines| ==>
      && (|entries[i]| == 1 || |entries[i]| == 2)
      && (|entries[i]| == 1 <==> ':' !in lines[i])
      && (|entries[i]| == 1 ==> entries[i][0] == lines[i])
      && (|entries[i]| == 2 ==> ':' !in entries[i][0] && entries[i][0] + ":" + entries[i][1] == lines[i])
  {
    seq(|lines|, i requires 0 <= i < |lines| => SplitOnce(lines[i], ':'))
  }

  /** `xs[:n]` for `n >= 0`. */
  function Truncate<T>(xs: seq<T>, n: nat): (r: seq<T>)
    ensures |r| == Min(|xs|, n)
    ensures r == xs[..|r|]
  {
    if |xs| <= n then xs else xs[..n]
  }

  /** The line `"{speaker}:{text}"`. */
  function LineOf(u: Utterance): string
  {
    u.username + ":" + u.text
  }

  /** `u` is what the line `line` says: a colon-free speaker name, the
      colon, then the utterance. */
  predicate Speaks(u: Utterance, line: string)
  {
    ':' !in u.username && LineOf(u) == line
  }

  /** The entries the command goes on to check: the split lines, cut to
      `max_messages`. */
  function Kept(lines: seq<string>, maxMessages: nat): (kept: seq<seq<string>>)
    ensures |kept| == Min(|lines|, maxMessages)
    ensures forall i :: 0 <= i < |kept| ==> kept[i] == SplitOnce(lines[i], ':')
  {
    Truncate(SplitEntries(lines), maxMessages)
  }

  /** No entry fails the `len(content) <= 1` test. */
  predicate AllPaired(kept: seq<seq<string>>)
  {
    forall i :: 0 <= i < |kept| ==> |kept[i]| > 1
  }

  /** `for user, message in gpt_messages`. */
  function Pairs(kept: seq<seq<string>>): (us: seq<Utterance>)
    requires AllPaired(kept)
    ensures |us| == |kept|
    ensures forall i :: 0 <= i < |kept| ==> us[i] == Utterance(kept[i][0], kept[i][1])
  {
    seq(|kept|, i requires 0 <= i < |kept| => Utterance(kept[i][0], kept[i][1]))
  }

  /** The decision over the generated lines: every kept line must have a
      colon, and then exactly the kept lines are sent, in order, as (text
      before the first colon, text after it). A colon-less line beyond
      `max_messages` does not matter. */
  function DecideLines(lines: seq<string>, maxMessages: nat): (d: Decision)
    ensures var n := Min(|lines|, maxMessages);
      && (d.Invalid? <==> exists i :: 0 <= i < n && ':' !in lines[i])
      && (d.Send? ==> |d.messages| == n && forall i :: 0 <= i < n ==> Speaks(d.messages[i], lines[i]))
  {
    var kept := Kept(lines, maxMessages);
    if AllPaired(kept) then Send(Pairs(kept)) else Invalid
  }

  /** The decision for a raw generated text: invalid exactly when one of
      the first `max_messages` lines of the trimmed text has no colon,
      otherwise those lines, each read as speaker and utterance. */
  function Decide(response: string, maxMessages: nat): (d: Decision)
    ensures var lines := ResponseLines(response); var n := Min(|lines|, maxMessages);
      && (d.Invalid? <==> exists i :: 0 <= i < n && ':' !in lines[i])
      && (d.Send? ==> |d.messages| == n && forall i :: 0 <= i < n ==> Speaks(d.messages[i], lines[i]))
  {
    DecideLines(ResponseLines(response), maxMessages)
  }

  /** The two loops of `monologue` as written: the first returns the
      invalid-response outcome at the first entry without a colon, the
      second collects the `(user, message)` pairs. `lines` is
      `ResponseLines` of the generated text. */
  method DispatchMonologue(lines: seq<string>, maxMessages: nat) returns (d: Decision)
    ensures d == DecideLines(lines, maxMessages)
  {
    var gptMessages := SplitEntries(lines);
    gptMessages := Truncate(gptMessages, maxMessages);
    assert gptMessages == Kept(lines, maxMessages);
    var i := 0;
    while i < |gptMessages|
      invariant 0 <= i <= |gptMessages|
      invariant forall j :: 0 <= j < i ==> |gptMessages[j]| > 1
    {
      if |gptMessages[i]| <= 1 {
        return Invalid;
      }
      i := i + 1;
    }
    var sent: seq<Utterance> := [];
    for k := 0 to |gptMessages|
      invariant |sent| == k
      invariant forall j :: 0 <= j < k ==> sent[j] == Utterance(gptMessages[j][0], gptMessages[j][1])
    {
      sent := sent + [Utterance(gptMessages[k][0], gptMessages[k][1])];
    }
    assert sent == Pairs(gptMessages);
    return Send(sent);
  }

  /** The line each sent message came from, rebuilt. */
  function Rebuild(messages: seq<Utterance>): (lines: seq<string>)
    ensures |lines| == |messages|
    ensures forall i :: 0 <= i < |messages| ==> lines[i] == LineOf(messages[i])
  {
    seq(|messages|, i requires 0 <= i < |messages| => LineOf(messages[i]))
  }

  /** Nothing is lost or invented: when every line is kept, the messages
      sent rebuild the trimmed generated text exactly. */
  lemma MonologueRoundTrip(response: string, maxMessages: nat)
    requires maxMessages >= |ResponseLines(response)|
    requires Decide(response, maxMessages).Send?
    ensures Join(Rebuild(Decide(response, maxMessages).messages), '\n') == Strip(response)
  {
    var lines := ResponseLines(response);
    var msgs := Decide(response, maxMessages).messages;
    assert Rebuild(msgs) == lines by {
      forall i | 0 <= i < |lines|
        ensures Rebuild(msgs)[i] == lines[i]
      {
        assert Speaks(msgs[i], lines[i]);
      }
    }
    JoinSplit(Strip(response), '\n');
  }

  /** Raising `max_messages` never rescues an invalid response, and a
      response sent in full under a higher limit is sent as a prefix under
      a lower one. */
  lemma DecideMonotone(response: string, m: nat, m': nat)
    requires m <= m'
    ensures Decide(response, m).Invalid? ==> Decide(response, m').Invalid?
    ensures Decide(response, m').Send? ==>
      && Decide(response, m).Send?
      && Decide(response, m).messages == Decide(response, m').messages[..|Decide(response, m).messages|]
  {
    var lines := ResponseLines(response);
    var d, d' := Decide(response, m), Decide(response, m');
    if d.Invalid? {
      var i :| 0 <= i < Min(|lines|, m) && ':' !in lines[i];
      assert 0 <= i < Min(|lines|, m');
    }
    if d'.Send? && d.Send? {
      var n := |d.messages|;
      forall i | 0 <= i < n
        ensures d.messages[i] == d'.messages[i]
      {
        SpeaksUnique(d.messages[i], d'.messages[i], lines[i]);
      }
    }
  }

  /** A line has only one speaker/utterance reading with a colon-free
      speaker. */
  lemma SpeaksUnique(u: Utterance, v: Utterance, line: string)
    requires Speaks(u, line) && Speaks(v, line)
    ensures u == v
  {
    IndexOfAfter(u.username, u.text, ':');
    IndexOfAfter(v.username, v.text, ':');
    assert |u.username| == |v.username|;
    assert u.username == line[..|u.username|] == v.username;
    assert u.text == line[|u.username| + 1..] == v.text;
  }

  /** Text that is already trimmed and made of separator-free lines is
      cut back into exactly those lines. */
  lemma ResponseLinesOfJoin(lines: seq<string>)
    requires |lines| >= 1
    requires forall i :: 0 <= i < |lines| ==> '\n' !in lines[i]
    requires IsTrimmed(Join(lines, '\n'))
    ensures ResponseLines(Join(lines, '\n')) == lines
  {
    StripTrimmed(Join(lines, '\n'));
    SplitJoin(lines, '\n');
  }

  /** The other round trip: lines written as `"{speaker}:{text}"` with
      colon-free speakers, no more of them than `max_messages`, are sent as
      exactly those utterances. */
  lemma DecideRebuild(us: seq<Utterance>, maxMessages: nat)
    requires |us| <= maxMessages
    requires forall i :: 0 <= i < |us| ==> ':' !in us[i].username
    ensures DecideLines(Rebuild(us), maxMessages) == Send(us)
  {
    var lines := Rebuild(us);
    var d := DecideLines(lines, maxMessages);
    forall i | 0 <= i < |us|
      ensures ':' in lines[i]
    {
      assert LineOf(us[i])[|us[i].username|] == ':';
    }
    assert d.Send?;
    forall i | 0 <= i < |us|
      ensures d.messages[i] == us[i]
    {
      SpeaksUnique(d.messages[i], us[i], lines[i]);
    }
  }

  /** An example: the generation `"alice: hi\nbob: yo\nalice: par"` posts
      three messages, `" hi"` as alice, `" yo"` as bob and `" par"` as
      alice. Each text keeps the blank that followed the colon. */
  lemma ThreeLineMonologue(a: Utterance, b: Utterance, c: Utterance)
    requires ':' !in a.username && ':' !in b.username && ':' !in c.username
    ensures DecideLines([LineOf(a), LineOf(b), LineOf(c)], DefaultMaxMessages) == Send([a, b, c])
  {
    assert Rebuild([a, b, c]) == [LineOf(a), LineOf(b), LineOf(c)];
    DecideRebuild([a, b, c], DefaultMaxMessages);
  }
}

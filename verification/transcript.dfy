/**
 Context assembly of bot.py: `get_previous_messages` (fetch the newest
 messages, drop those by automated accounts, put them oldest first, render
 each as `"author: content"` and join them with line breaks) and the
 single-reply prompt built from it in `gpt_channel_response`.
 */
module Transcript {
  import opened Wrappers
  import opened Text
  import opened Entities

  /** `MESSAGE_CONTEXT_LIMIT`: how many messages are fetched as context. */
  const MessageContextLimit: nat := 50

  /** `channel.history(limit=MESSAGE_CONTEXT_LIMIT)` over a newest-first
      history: the newest messages, at most the limit of them. */
  function Fetch(history: seq<Message>): (r: seq<Message>)
    ensures |r| == Min(|history|, MessageContextLimit)
    ensures r == history[..|r|]
  {
    if |history| <= MessageContextLimit then history else history[..MessageContextLimit]
  }

  /** The message as a one-element list when a person wrote it, else `[]`. */
  function PersonOnly(m: Message): seq<Message>
  {
    if m.author.isBot then [] else [m]
  }

  /** The messages not written by an automated account, order kept. */
  function Humans(ms: seq<Message>): (r: seq<Message>)
    ensures forall m :: m in r <==> m in ms && !m.author.isBot
    ensures |r| <= |ms|
  {
    if |ms| == 0 then [] else PersonOnly(ms[0]) + Humans(ms[1..])
  }

  /** Filtering a concatenation filters each part, so the filter keeps the
      relative order of the messages it lets through. */
  lemma {:induction false} HumansAppend(a: seq<Message>, b: seq<Message>)
    ensures Humans(a + b) == Humans(a) + Humans(b)
  {
    if |a| > 0 {
      calc {
        Humans(a + b);
        { assert (a + b)[0] == a[0]; assert (a + b)[1..] == a[1..] + b; }
        PersonOnly(a[0]) + Humans(a[1..] + b);
        { HumansAppend(a[1..], b); }
        PersonOnly(a[0]) + (Humans(a[1..]) + Humans(b));
        (PersonOnly(a[0]) + Humans(a[1..])) + Humans(b);
        Humans(a) + Humans(b);
      }
    } else {
      assert a + b == b;
    }
  }

  /** `list.reverse()`. */
  function Reverse<T>(s: seq<T>): (r: seq<T>)
    ensures |r| == |s|
    ensures forall i :: 0 <= i < |s| ==> r[i] == s[|s| - 1 - i]
  {
    if |s| == 0 then [] else Reverse(s[1..]) + [s[0]]
  }

  lemma {:induction false} ReverseAppend<T>(a: seq<T>, b: seq<T>)
    ensures Reverse(a + b) == Reverse(b) + Reverse(a)
  {
    var r, l := Reverse(a + b), Reverse(b) + Reverse(a);
    assert |r| == |l|;
    forall i | 0 <= i < |r|
      ensures r[i] == l[i]
    {
      if i < |b| {
        assert l[i] == b[|b| - 1 - i];
      } else {
        assert l[i] == Reverse(a)[i - |b|];
      }
    }
  }

  /** `get_previous_messages(channel, as_string=False)`: the fetched
      messages by people, oldest first. */
  function PreviousMessages(history: seq<Message>): (r: seq<Message>)
    ensures |r| <= MessageContextLimit
    ensures forall m :: m in r <==> m in Fetch(history) && !m.author.isBot
  {
    var people := Humans(Fetch(history));
    var r := Reverse(people);
    assert forall m :: m in r <==> m in people by {
      forall m | m in people
        ensures m in r
      {
        var i :| 0 <= i < |people| && people[i] == m;
        assert r[|people| - 1 - i] == m;
      }
    }
    r
  }

  /** Oldest first: of two stretches of fetched history, the older one
      (retrieved later) comes first in the context. */
  lemma PreviousMessagesOlderFirst(newer: seq<Message>, older: seq<Message>)
    requires |newer + older| <= MessageContextLimit
    ensures PreviousMessages(newer + older) == PreviousMessages(older) + PreviousMessages(newer)
  {
    HumansAppend(newer, older);
    ReverseAppend(Humans(newer), Humans(older));
  }

  /** The context of any channel, however long its history, is the
      context of the 50 messages that are fetched. */
  lemma PreviousMessagesOfFetch(history: seq<Message>)
    ensures PreviousMessages(history) == PreviousMessages(Fetch(history))
  {
  }

  /** Oldest first, for a channel of any length: cutting the fetched
      messages into the newest `k` and the rest, the context lists the
      rest first. */
  lemma PreviousMessagesOldestFirst(history: seq<Message>, k: nat)
    requires k <= |Fetch(history)|
    ensures PreviousMessages(history)
         == PreviousMessages(Fetch(history)[k..]) + PreviousMessages(Fetch(history)[..k])
  {
    var f := Fetch(history);
    PreviousMessagesOfFetch(history);
    assert f == f[..k] + f[k..];
    PreviousMessagesOlderFirst(f[..k], f[k..]);
  }

  /** One line of the transcript: `f"{message.author.name}: {message.content}"`. */
  function Render(m: Message): string
  {
    m.author.name + ": " + m.content
  }

  function RenderAll(ms: seq<Message>): (lines: seq<string>)
    ensures |lines| == |ms|
    ensures forall i :: 0 <= i < |ms| ==> lines[i] == Render(ms[i])
  {
    seq(|ms|, i requires 0 <= i < |ms| => Render(ms[i]))
  }

  /** `get_previous_messages(channel)`: the transcript string. It is empty
      exactly when no fetched message is by a person, so an empty or
      all-automated channel gives `""`. */
  function TranscriptOf(history: seq<Message>): (t: string)
    ensures t == [] <==> PreviousMessages(history) == []
  {
    var lines := RenderAll(PreviousMessages(history));
    JoinEmpty(lines, '\n');
    Join(lines, '\n')
  }

  /** The prompt of the single-reply flow: the transcript, a line break and
      the impersonated user's name with a `": "` separator, so that the
      generation continues as that user. Its lines are the transcript's
      lines followed by the line `"{name}: "` (an empty transcript
      contributes one empty line). */
  function ReplyContext(history: seq<Message>, userName: string): (c: string)
    ensures '\n' !in userName ==>
      Split(c, '\n') == Split(TranscriptOf(history), '\n') + [userName + ": "]
  {
    var t := TranscriptOf(history);
    AppendLine(t, userName + ": ");
    assert t + "\n" + userName + ": " == t + ['\n'] + (userName + ": ");
    t + "\n" + userName + ": "
  }

  /** Appending a line break and a line without one adds that line. */
  lemma AppendLine(t: string, last: string)
    ensures '\n' !in last ==> Split(t + ['\n'] + last, '\n') == Split(t, '\n') + [last]
  {
    SplitAround(t, last, '\n');
    if '\n' !in last {
      IndexOfNone(last, '\n');
      SplitAt(last, '\n');
    }
  }

  /** No line break in an author's name or in a message's text. */
  predicate SingleLine(m: Message)
  {
    '\n' !in m.author.name && '\n' !in m.content
  }

  lemma RenderSingleLine(m: Message)
    requires SingleLine(m)
    ensures '\n' !in Render(m)
  {
    var r := Render(m);
    forall i | 0 <= i < |r|
      ensures r[i] != '\n'
    {
      if i < |m.author.name| {
        assert r[i] == m.author.name[i];
      } else if i >= |m.author.name| + 2 {
        assert r[i] == m.content[i - |m.author.name| - 2];
      }
    }
  }

  /** A join of non-empty pieces is empty exactly when there are none. */
  lemma {:induction false} JoinEmpty(parts: seq<string>, sep: char)
    requires forall i :: 0 <= i < |parts| ==> |parts[i]| > 0
    ensures Join(parts, sep) == [] <==> |parts| == 0
  {
    if |parts| > 1 {
      assert |Join(parts, sep)| >= |parts[0]|;
    }
  }

  /** The transcript has one line per fetched message by a person, oldest
      first, each rendered as `"author: content"`, provided no name or text
      of those messages itself breaks a line. */
  lemma TranscriptLines(history: seq<Message>)
    requires forall m :: m in PreviousMessages(history) ==> SingleLine(m)
    requires PreviousMessages(history) != []
    ensures Split(TranscriptOf(history), '\n') == RenderAll(PreviousMessages(history))
  {
    var prev := PreviousMessages(history);
    var lines := RenderAll(prev);
    forall i | 0 <= i < |lines|
      ensures '\n' !in lines[i]
    {
      RenderSingleLine(prev[i]);
    }
    SplitJoin(lines, '\n');
  }

  /** Rendering a concatenation renders each part. */
  lemma RenderAllAppend(a: seq<Message>, b: seq<Message>)
    ensures RenderAll(a + b) == RenderAll(a) + RenderAll(b)
  {
    var l, r := RenderAll(a + b), RenderAll(a) + RenderAll(b);
    forall i | 0 <= i < |l|
      ensures l[i] == r[i]
    {
      if i < |a| {
        assert (a + b)[i] == a[i];
      } else {
        assert (a + b)[i] == b[i - |a|];
      }
    }
  }

  /** Of two stretches of fetched history that each hold a message by a
      person, the transcript is the older stretch's transcript, a line
      break and the newer one's: whatever the texts hold. */
  lemma TranscriptAppend(newer: seq<Message>, older: seq<Message>)
    requires |newer + older| <= MessageContextLimit
    requires PreviousMessages(newer) != [] && PreviousMessages(older) != []
    ensures TranscriptOf(newer + older) == TranscriptOf(older) + "\n" + TranscriptOf(newer)
  {
    var pn, po := PreviousMessages(newer), PreviousMessages(older);
    calc {
      TranscriptOf(newer + older);
      Join(RenderAll(PreviousMessages(newer + older)), '\n');
      { PreviousMessagesOlderFirst(newer, older); }
      Join(RenderAll(po + pn), '\n');
      { RenderAllAppend(po, pn); }
      Join(RenderAll(po) + RenderAll(pn), '\n');
      { JoinAppend(RenderAll(po), RenderAll(pn), '\n'); }
      Join(RenderAll(po), '\n') + "\n" + Join(RenderAll(pn), '\n');
    }
  }

  /** A single message by a person is the whole transcript, as rendered. */
  lemma TranscriptOfOne(m: Message)
    requires !m.author.isBot
    ensures TranscriptOf([m]) == Render(m)
  {
    PreviousMessagesOfPeople([m]);
    assert Reverse([m]) == [m];
    assert RenderAll([m]) == [Render(m)];
  }

  lemma {:induction false} HumansOfPeople(h: seq<Message>)
    requires forall i :: 0 <= i < |h| ==> !h[i].author.isBot
    ensures Humans(h) == h
  {
    if |h| > 0 {
      HumansOfPeople(h[1..]);
    }
  }

  /** A fetched history written only by people is used whole, reversed. */
  lemma PreviousMessagesOfPeople(h: seq<Message>)
    requires |h| <= MessageContextLimit
    requires forall i :: 0 <= i < |h| ==> !h[i].author.isBot
    ensures PreviousMessages(h) == Reverse(h)
  {
    HumansOfPeople(h);
  }

  /** Three messages by people, fetched newest first as `[c, b, a]`, are
      put in the order `a`, `b`, `c`. */
  lemma PreviousMessagesOfThree(a: Message, b: Message, c: Message)
    requires !a.author.isBot && !b.author.isBot && !c.author.isBot
    ensures PreviousMessages([c, b, a]) == [a, b, c]
  {
    PreviousMessagesOfPeople([c, b, a]);
    var r := Reverse([c, b, a]);
    assert r[0] == a && r[1] == b && r[2] == c;
  }

  /** ... and give the transcript `a`, `b`, `c` line by line. */
  lemma TranscriptOfThree(a: Message, b: Message, c: Message)
    requires !a.author.isBot && !b.author.isBot && !c.author.isBot
    ensures TranscriptOf([c, b, a]) == Render(a) + "\n" + Render(b) + "\n" + Render(c)
  {
    var ra, rb, rc := Render(a), Render(b), Render(c);
    calc {
      TranscriptOf([c, b, a]);
      Join(RenderAll(PreviousMessages([c, b, a])), '\n');
      { PreviousMessagesOfThree(a, b, c); }
      Join(RenderAll([a, b, c]), '\n');
      { assert RenderAll([a, b, c]) == [ra, rb, rc]; }
      Join([ra, rb, rc], '\n');
      { JoinThree(ra, rb, rc, '\n'); }
      ra + "\n" + rb + "\n" + rc;
    }
  }

  lemma JoinThree(x: string, y: string, z: string, sep: char)
    ensures Join([x, y, z], sep) == x + [sep] + y + [sep] + z
  {
    assert [x, y, z][1..] == [y, z];
    assert [y, z][1..] == [z];
    assert Join([y, z], sep) == y + [sep] + z;
    assert Join([x, y, z], sep) == x + [sep] + (y + [sep] + z);
  }
}

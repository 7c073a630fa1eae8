/**
 The command and event flows of bot.py with the platform calls replaced by
 values: `gpt_channel_response`, the `sus` command, the ping-mode branch of
 `on_message`, and the `monologue` command. The generation service
 (`run_gpt_inference`) is a function parameter from the context string and
 the token budget to the generated text.
 */
module Bot {
  import opened Wrappers
  import opened Text
  import opened Entities
  import opened Helpers
  import opened Transcript
  import opened PingMode
  import opened Webhooks
  import Monologue

  /** `GPT_INVALID_RESPONSE_MESSAGE`. */
  const InvalidResponseMessage: string :=
    "Sorry, I could not think of a good message. Please make "
    + "sure there are enough messages in this channel so that I can learn how you write."

  const FakeMessageSent: string := "Fake message sent!"
  const FakeConversationSent: string := "Fake conversation sent!"

  /** `token_max_length` of the single-reply flow. */
  const ReplyTokenLimit: nat := 50

  /** `run_gpt_inference(context, token_max_length)`: the text that one call
      returned for a prompt and a token limit. */
  type Generator = (string, nat) -> string

  /** A message sent through a webhook: its text, the display name it is
      sent under and the avatar, when one is given. */
  datatype Post = Post(content: string, username: string, avatarUrl: Option<string>)

  /** What one invocation did: the webhook lookup it made (when it got that
      far), the posts it sent into the channel in order, and the hidden reply
      it gave the invoking user (when it gave one). */
  datatype Outcome = Outcome(webhook: Option<Resolution>, posts: seq<Post>, notice: Option<string>)

  /** The generated text the single-reply flow works from. */
  function ReplyGeneration(channel: Channel, user: User, generate: Generator): string
  {
    generate(ReplyContext(channel.history, user.name), ReplyTokenLimit)
  }

  /** The prompt of a reply is built only from the context messages (by
      people, among the 50 newest, oldest first) and the user's name: the
      channel's webhooks, older or automated messages and the user's id
      and avatar do not enter it. */
  lemma ReplyPromptInputs(c1: Channel, c2: Channel, u1: User, u2: User)
    requires PreviousMessages(c1.history) == PreviousMessages(c2.history)
    requires u1.name == u2.name
    ensures ReplyContext(c1.history, u1.name) == ReplyContext(c2.history, u2.name)
  {
  }

  /** `gpt_channel_response(channel, user)`: the channel's webhook and the
      reply extracted from the generation. */
  function ChannelResponse(channel: Channel, user: User, generate: Generator): (r: (Resolution, string))
    ensures r.0 == ResolveWebhook(channel.id, channel.webhooks)
    ensures r.1 == FirstMessage(ReplyGeneration(channel, user, generate), user.name)
    ensures '\n' !in r.1 && IsTrimmed(r.1)
    ensures IsSliceOf(r.1, ReplyGeneration(channel, user, generate))
  {
    var response := ReplyGeneration(channel, user, generate);
    (ResolveWebhook(channel.id, channel.webhooks), FirstMessage(response, user.name))
  }

  /** A post under the impersonated user's name and avatar. */
  function PostAs(content: string, user: User): Post
  {
    Post(content, user.name, Some(user.avatarUrl))
  }

  /** A reply that holds one line of text without surrounding whitespace,
      taken from the generated text. */
  ghost predicate GoodReply(content: string, generation: string)
  {
    content != [] && '\n' !in content && IsTrimmed(content) && IsSliceOf(content, generation)
  }

  /** The `sus` command: post the extracted reply as `user` when it is
      non-empty, otherwise tell the invoker that no message came out. */
  function Sus(channel: Channel, user: User, generate: Generator): (o: Outcome)
    ensures o.webhook == Some(ResolveWebhook(channel.id, channel.webhooks))
    ensures o.posts == [] <==> o.notice == Some(InvalidResponseMessage)
    ensures o.posts != [] ==> o.notice == Some(FakeMessageSent)
    ensures o.posts == [] <==> FirstMessage(ReplyGeneration(channel, user, generate), user.name) == []
    ensures o.posts != [] ==>
      && |o.posts| == 1
      && o.posts[0].content == FirstMessage(ReplyGeneration(channel, user, generate), user.name)
      && o.posts[0].username == user.name && o.posts[0].avatarUrl == Some(user.avatarUrl)
      && GoodReply(o.posts[0].content, ReplyGeneration(channel, user, generate))
  {
    var r := ChannelResponse(channel, user, generate);
    SusReply(r.0, r.1, user)
  }

  /** The `if not first_response_message` test of `sus`. */
  function SusReply(webhook: Resolution, message: string, user: User): (o: Outcome)
    ensures o.webhook == Some(webhook)
    ensures message == [] ==> o.posts == [] && o.notice == Some(InvalidResponseMessage)
    ensures message != [] ==> o.posts == [PostAs(message, user)] && o.notice == Some(FakeMessageSent)
  {
    if message == [] then
      Outcome(Some(webhook), [], Some(InvalidResponseMessage))
    else
      Outcome(Some(webhook), [PostAs(message, user)], Some(FakeMessageSent))
  }

  /** When the generation's first line is `"{name}:"` followed by a text
      that does not start with the name again, `sus` posts that text,
      trimmed, under the user's name (or gives the notice if it is blank). */
  lemma SusPostsLabelledReply(channel: Channel, user: User, generate: Generator, rest: string)
    requires FirstLine(Strip(ReplyGeneration(channel, user, generate))) == user.name + ":" + rest
    requires !StartsWith(rest, user.name)
    ensures Strip(rest) != [] ==> Sus(channel, user, generate).posts == [PostAs(Strip(rest), user)]
    ensures Strip(rest) == [] ==> Sus(channel, user, generate).notice == Some(InvalidResponseMessage)
  {
    FirstMessageWithLabel(ReplyGeneration(channel, user, generate), user.name, rest);
  }

  /** A generation that is blank (or whose first line is blank) posts
      nothing and gets the invalid-response notice. */
  lemma SusBlankGeneration(channel: Channel, user: User, generate: Generator)
    requires AllWhitespace(ReplyGeneration(channel, user, generate))
    ensures Sus(channel, user, generate).posts == []
    ensures Sus(channel, user, generate).notice == Some(InvalidResponseMessage)
  {
    assert Strip(ReplyGeneration(channel, user, generate)) == [];
    assert FirstLine([]) == [];
  }

  /** The ping-mode branch of `on_message`: when the message triggers an
      impersonation, post the reply extracted from a generation over the
      message's own channel as the mentioned user, if it is non-empty.
      Nothing is ever said to the author. */
  function OnMessage(botId: UserId, users: PingModeUsers, msg: IncomingMessage, generate: Generator): (o: Outcome)
    ensures o.notice.None?
    ensures !FromPerson(botId, msg) ==> o == Outcome(None, [], None)
    ensures ImpersonationTarget(botId, users, msg).None? <==> o.webhook.None?
    ensures ImpersonationTarget(botId, users, msg).Some? ==>
      o.webhook == Some(ResolveWebhook(msg.channel.id, msg.channel.webhooks))
    ensures ImpersonationTarget(botId, users, msg).Some? ==>
      var target := ImpersonationTarget(botId, users, msg).value;
      (o.posts == [] <==> FirstMessage(ReplyGeneration(msg.channel, target, generate), target.name) == [])
    ensures o.posts != [] ==>
      && |o.posts| == 1
      && ImpersonationTarget(botId, users, msg).Some?
      && var target := ImpersonationTarget(botId, users, msg).value;
      && o.posts[0].content == FirstMessage(ReplyGeneration(msg.channel, target, generate), target.name)
      && o.posts[0].username == target.name && o.posts[0].avatarUrl == Some(target.avatarUrl)
      && target in msg.mentions && msg.guild.Some? && users[msg.guild.value] == target.id
      && GoodReply(o.posts[0].content, ReplyGeneration(msg.channel, target, generate))
  {
    match ImpersonationTarget(botId, users, msg)
    case None => Outcome(None, [], None)
    case Some(user) =>
      var r := ChannelResponse(msg.channel, user, generate);
      Outcome(Some(r.0), if r.1 != [] then [PostAs(r.1, user)] else [], None)
  }

  /** The generated text the monologue works from: the bare transcript. */
  function MonologueGeneration(channel: Channel, generate: Generator): string
  {
    generate(TranscriptOf(channel.history), Monologue.MonologueTokenLimit)
  }

  /** The monologue's prompt likewise is built only from the context
      messages. */
  lemma MonologuePromptInputs(c1: Channel, c2: Channel)
    requires PreviousMessages(c1.history) == PreviousMessages(c2.history)
    ensures TranscriptOf(c1.history) == TranscriptOf(c2.history)
  {
  }

  /** The posts for the utterances, in order, without avatars. */
  function UtterancePosts(us: seq<Monologue.Utterance>): (ps: seq<Post>)
    ensures |ps| == |us|
    ensures forall i :: 0 <= i < |us| ==> ps[i] == Post(us[i].text, us[i].username, None)
  {
    seq(|us|, i requires 0 <= i < |us| => Post(us[i].text, us[i].username, None))
  }

  /** The `monologue` command: every kept line of the generation is posted
      under the speaker it names, or, if one of them names none, nothing is
      posted and the invoker gets the invalid-response notice. */
  function MonologueCommand(channel: Channel, maxMessages: nat, generate: Generator): (o: Outcome)
    ensures o.webhook == Some(ResolveWebhook(channel.id, channel.webhooks))
    ensures var lines := Monologue.ResponseLines(MonologueGeneration(channel, generate));
      var n := Min(|lines|, maxMessages);
      && (o.notice == Some(InvalidResponseMessage) <==> exists i :: 0 <= i < n && ':' !in lines[i])
      && (o.notice == Some(InvalidResponseMessage) ==> o.posts == [])
      && (o.notice != Some(InvalidResponseMessage) ==>
            && o.notice == Some(FakeConversationSent)
            && |o.posts| == n
            && forall i :: 0 <= i < n ==>
                 && o.posts[i].avatarUrl.None?
                 && Monologue.Speaks(Monologue.Utterance(o.posts[i].username, o.posts[i].content), lines[i]))
  {
    var webhook := ResolveWebhook(channel.id, channel.webhooks);
    var response := MonologueGeneration(channel, generate);
    match Monologue.Decide(response, maxMessages)
    case Invalid => Outcome(Some(webhook), [], Some(InvalidResponseMessage))
    case Send(us) => Outcome(Some(webhook), UtterancePosts(us), Some(FakeConversationSent))
  }
}

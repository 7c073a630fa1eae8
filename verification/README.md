# GPT-Impostor: a verified model of the impersonation logic

GPT-Impostor is a Discord bot that impersonates users. It reads a channel's
recent history, sends it to a text-generation service, and re-posts the
generated text through a per-channel webhook under the impersonated user's
name and avatar. Most of bot.py and helpers.py is Discord and HTTP plumbing.
This project models the pure string, list and state logic inside that
plumbing as Dafny functions over plain records, and proves what that logic
guarantees.

- `Text` (text.dfy): Python's `str.isspace`, `startswith`, `strip`,
  `split(sep)`, `split(sep, 1)` and `sep.join`, with the split/join round trips.
- `Decimal` (decimal.dfy): `str(n)` for integers and its inverse. The inverse
  shows that webhook names are distinct per channel.
- `Entities` (entities.dfy): users, messages, webhooks and channels as records.
- `Helpers` (helpers.dfy): `remove_prefix` and `get_gpt_first_message`.
- `Transcript` (transcript.dfy): `get_previous_messages` and the single-reply
  prompt.
- `Monologue` (monologue.dfy): the parse, truncate and validate steps of the
  `monologue` command.
- `PingMode` (pingmode.dfy): the `ping_mode_users` map, `setuser`, and the
  trigger test of `on_message`.
- `Webhooks` (webhooks.dfy): `get_channel_webhook`.
- `Bot` (bot.dfy): the `sus`, `on_message` and `monologue` flows. The
  generation service is a function parameter from the context string and the
  token budget to the generated text.

Behaviour worth knowing:

- `get_gpt_first_message` removes `"{name}:"` and then removes `"{name}"`
  again from what is left. A reply whose utterance starts with the name right
  after the colon loses that name too: for `Bob`, the line `"Bob:Bobby"`
  becomes `"by"` (`Helpers.FirstMessageStripsNameTwice`). When the text after
  the colon does not start with the name, the result is that text, trimmed
  (`Helpers.FirstMessageWithLabel`).
- A second `remove_prefix` also cuts a bare name prefix off a different
  speaker's label: for the name `Al`, the line `"Alice: hi"` becomes
  `"ice: hi"`. The model keeps this, because the code does it
  (`Helpers.RemovePrefix` cuts any matching prefix).
- The monologue posts each kept line as one message. Each posted text keeps
  the blank that followed the colon (`Monologue.ThreeLineMonologue`).
- Bot-authored messages count toward the 50 fetched messages before they are
  filtered out, so the transcript can have fewer than 50 lines.

Facts about bot.py and helpers.py that shape the model:

- bot.py keeps no directory of granted users. There is no revoke, no list and
  no "already granted" answer. There is only the in-memory `ping_mode_users`
  map with one user per guild, and `setuser` overwrites that entry.
- bot.py keeps no statistics counters.
- The monologue posts every kept line, the last one included. A colon-less
  line is only fatal when it lies within `max_messages`.
- `get_gpt_first_message` has no length-based label fallback. It takes the
  first line of the trimmed text. That line is empty only when the whole
  generated text is blank. Otherwise it starts at the text's first
  character that is not whitespace (both by `Helpers.FirstLineEmpty`).
- The transcript always leaves out messages by automated accounts. bot.py
  has no switch for this.
- bot.py has no error path for a failed generation call. The model treats
  the call as always returning text. An empty or blank text leads to the
  invalid-response notice (`Bot.SusBlankGeneration`).

## Model

| member | source | states |
|---|---|---|
| Text.Strip | helpers.py:14 | the result has no whitespace at either end; it is a contiguous piece of the input with only whitespace before and after it; it is empty exactly when the input is all whitespace |
| Text.StripTrimmed | helpers.py:14 | stripping text that is already trimmed changes nothing |
| Text.Split | bot.py:119 | splitting on `\n` gives at least one piece, and no piece contains the separator |
| Text.SplitOnce | bot.py:118-120 | `split(":", 1)` gives one piece (the line itself) exactly when there is no colon; otherwise it gives a colon-free piece before the first colon and the rest after it, and `before + ":" + after` is the line |
| Text.JoinSplit | bot.py:119 | joining the pieces of a split with the separator gives back the original text |
| Text.SplitJoin | bot.py:84-90 | splitting a join of one or more separator-free lines gives back exactly those lines |
| Text.JoinAppend | bot.py:84-89 | joining two non-empty lists of lines is joining each, with one line break between |
| Text.SplitAround | bot.py:173 | the lines of `a + "\n" + b` are the lines of `a` followed by the lines of `b` |
| Decimal.ParseShowInt | bot.py:68 | `int(str(n)) == n` for every integer channel id |
| Decimal.ShowIntInjective | bot.py:68-70 | distinct integers have distinct decimal renderings |
| Helpers.RemovePrefix | helpers.py:4-7 | if the text starts with the prefix, then `prefix + result == text`; otherwise the text comes back unchanged; in both cases the result is a suffix of the text |
| Helpers.RemovePrefixOfConcat | helpers.py:4-7 | `remove_prefix(prefix + rest, prefix) == rest` for every prefix, the empty one included |
| Helpers.FirstLine | helpers.py:11 | `split("\n")[0]` holds no line break, is a prefix of the text, and is followed by a line break when shorter than the text |
| Helpers.FirstMessage | helpers.py:10-15 | `get_gpt_first_message`: the reply holds no line break, has no whitespace at either end, is a contiguous piece of the generated text, and is empty for a blank text; its value on every first line is given by `FirstMessageWithLabel`, `FirstMessageWithNamePrefix` and `FirstMessageWithoutName` |
| Helpers.FirstLineEmpty | helpers.py:11 | the first line of the trimmed text is empty exactly when the generated text is all whitespace; otherwise it opens with the text's first character that is not whitespace |
| Helpers.ReplyOfLine | helpers.py:12-14 | the two prefix removals and the final strip give a trimmed piece of the line, free of line breaks when the line is, and empty when the line is blank; `ReplyOfLabelledLine` gives its value on a labelled line |
| Helpers.ReplyOfLabelledLine | helpers.py:12-14 | on the line `"{name}:" + rest` the result is `rest` with one leading name removed, then trimmed |
| Helpers.FirstMessageWithLabel | helpers.py:11-14 | if the trimmed first line is `"{name}:" + rest`, the reply is `rest` with one more leading name removed, then trimmed; if `rest` does not start with the name, the reply is just `rest`, trimmed |
| Helpers.FirstMessageWithNamePrefix | helpers.py:11-14 | if the trimmed first line is the name followed by text that does not open with a colon, the reply is that text, trimmed: the name is cut even when it is only the start of a longer word |
| Helpers.ReplyOfNamePrefixedLine | helpers.py:12-14 | on the line `name + rest`, with `rest` not opening with a colon, the result is `rest`, trimmed |
| Helpers.FirstMessageWithoutName | helpers.py:11-14 | if the trimmed first line does not start with the name, the reply is that line, trimmed |
| Helpers.FirstMessageStripsNameTwice | helpers.py:12-13 | a first line `"{name}:{name}" + tail` gives `tail`, trimmed, because both prefix removals apply |
| Transcript.Fetch | bot.py:76 | fetching keeps the newest `min(len, 50)` messages of the newest-first history |
| Transcript.Humans | bot.py:77-79 | a message is kept exactly when it is in the input and its author is not a bot |
| Transcript.HumansAppend | bot.py:77-79 | filtering distributes over concatenation, so kept messages stay in their relative order |
| Transcript.Reverse | bot.py:82 | the reversal has the same length, and its element `i` is input element `len - 1 - i` |
| Transcript.PreviousMessages | bot.py:74-92 | the context holds at most 50 messages; a message is in it exactly when it was fetched and its author is not a bot; it is oldest first for a channel of any length (`PreviousMessagesOldestFirst`) |
| Transcript.PreviousMessagesOfFetch | bot.py:76 | the context of a channel is the context of its 50 newest messages, however long the history |
| Transcript.PreviousMessagesOldestFirst | bot.py:76-82 | for any channel, when the fetched messages are cut into the newest `k` and the rest, the context lists the rest first and the newest `k` after them |
| Transcript.PreviousMessagesOlderFirst | bot.py:80-82 | for a fetched history `newer + older`, the context puts the older stretch first and the newer stretch after it |
| Transcript.PreviousMessagesOfPeople | bot.py:76-82 | a fetched history with no bot authors is used whole, in reverse order |
| Transcript.PreviousMessagesOfThree | bot.py:76-82 | three messages retrieved newest first as `[c, b, a]` are put in the order `[a, b, c]` |
| Transcript.TranscriptOfThree | bot.py:84-90 | those three messages give the transcript `"a.author: a.content\nb…\nc…"` |
| Transcript.TranscriptOf | bot.py:84-90 | the transcript is `""` exactly when no fetched message has a non-bot author; `TranscriptOfOne` and `TranscriptAppend` give its value for any texts, `TranscriptLines` its lines |
| Transcript.TranscriptOfOne | bot.py:84-90 | one message by a person gives the transcript `"author: content"`, whatever the text holds |
| Transcript.TranscriptAppend | bot.py:84-90 | for two stretches of fetched history that each hold a message by a person, the transcript is the older one's transcript, a line break and the newer one's, whatever the texts hold |
| Transcript.TranscriptLines | bot.py:84-90 | when the names and texts of the context messages hold no line break, the transcript's lines are exactly `"author: content"` for each context message, oldest first |
| Transcript.ReplyContext | bot.py:173 | for a name without a line break, the lines of the single-reply prompt are the transcript's lines followed by the line `"{name}: "` |
| Monologue.ResponseLines | bot.py:119 | the trimmed generation is cut into at least one line, none holding a line break, and joining them with line breaks gives back the trimmed text |
| Monologue.SplitEntries | bot.py:118-120 | one entry per line; an entry has one piece, the line itself, exactly when the line has no colon; otherwise it has two, a colon-free speaker and the rest, and `speaker + ":" + rest` is the line |
| Monologue.Truncate | bot.py:122 | `xs[:n]` keeps exactly the first `min(len(xs), n)` entries |
| Monologue.DecideLines | bot.py:118-133 | the outcome is invalid exactly when one of the first `min(#lines, max_messages)` lines has no colon; otherwise exactly those lines are sent, in order, each as (text before the first colon, text after it) |
| Monologue.Decide | bot.py:116-131 | for a raw generation: invalid exactly when one of the first `max_messages` lines of the trimmed text has no colon; otherwise exactly those lines are sent, each read as speaker and utterance |
| Monologue.DispatchMonologue | bot.py:124-133 | the two loops as written, returning at the first colon-less entry, compute the same outcome as `DecideLines` |
| Monologue.MonologueRoundTrip | bot.py:118-133 | when every line is kept and sent, the sent messages rebuild the trimmed generated text exactly |
| Monologue.DecideRebuild | bot.py:118-133 | the inverse direction of the round trip: lines written as `"{speaker}:{text}"` with colon-free speakers, no more than `max_messages` of them, are sent as exactly those utterances, in order |
| Monologue.DecideMonotone | bot.py:122-130 | raising `max_messages` never turns an invalid response into a valid one; a response sent under a higher limit is sent as a prefix under a lower one |
| Monologue.SpeaksUnique | bot.py:119 | a line has only one reading as a colon-free speaker, a colon and an utterance |
| Monologue.ResponseLinesOfJoin | bot.py:119 | trimmed text made of separator-free lines is cut back into exactly those lines |
| Monologue.ThreeLineMonologue | bot.py:118-133 | three lines `"s:t"` with colon-free speakers are all sent, as (s, t) pairs in order |
| PingMode.SetUser | bot.py:196-197 | after `setuser`, the guild maps to exactly the given user's id, and every other guild's entry is unchanged |
| PingMode.SetUserNotice | bot.py:198 | the reply is `"Impersonating "`, the user's name and a full stop, so the name reads back from it |
| PingMode.SetUserNoticeNames | bot.py:198 | two replies are equal exactly when they name the same user name |
| PingMode.SetUserOverwrites | bot.py:197 | a second `setuser` in the same guild replaces the first |
| PingMode.MentionWithId | bot.py:51-53 | the lookup finds nothing exactly when no mention has the id; otherwise it returns the last mention with that id |
| PingMode.ImpersonationTarget | bot.py:42-53 | a message triggers exactly when its author is neither the bot nor a bot account, its guild has an entry, and a mention has that entry's user id; the target is that mentioned user |
| PingMode.SetUserThenMention | bot.py:49-53 | after `setuser(u)` in a guild, a person's message there that mentions `u` triggers an impersonation of `u` |
| PingMode.SetUserElsewhere | bot.py:196-197 | `setuser` in one guild does not change whether messages in any other guild trigger |
| Webhooks.WebhookName | bot.py:68 | the webhook name `str(channel.id)` is non-empty and parses back to the channel id |
| Webhooks.FirstNamed | bot.py:68 | the search returns the first index whose webhook has the name, and finds nothing exactly when no webhook has it |
| Webhooks.ResolveWebhook | bot.py:65-71 | an existing webhook named `str(channel.id)` is reused, namely the first such; a webhook with that name is created only when none exists |
| Webhooks.ResolveTwice | bot.py:65-71 | after a creation, the next lookup reuses the created webhook and creates nothing more |
| Webhooks.WebhookNamesDistinct | bot.py:68-70 | distinct channels get distinct webhook names |
| Bot.ReplyPromptInputs | bot.py:171-173 | the reply prompt is built only from the context messages and the user's name: channels with the same context and users with the same name get the same prompt |
| Bot.MonologuePromptInputs | bot.py:114-116 | the monologue prompt is built only from the context messages |
| Bot.ChannelResponse | bot.py:168-180 | `gpt_channel_response` resolves the channel's webhook; its reply is `get_gpt_first_message` of the text generated for the reply prompt, so one line without surrounding whitespace cut from that text |
| Bot.Sus | bot.py:150-165 | `sus` posts once, under the user's name and avatar, exactly when the extracted reply is non-empty; the post is that reply; otherwise it posts nothing and sends the invalid-response notice |
| Bot.SusReply | bot.py:156-165 | an empty reply gives only the notice; a non-empty one gives one post and "Fake message sent!" |
| Bot.SusPostsLabelledReply | bot.py:154-165 | for the generation `"{name}:" + rest`, `sus` posts `rest` trimmed, or sends the notice when that is blank |
| Bot.SusBlankGeneration | bot.py:156-160 | a blank generation posts nothing and sends the invalid-response notice |
| Bot.OnMessage | bot.py:42-62 | messages by the bot or by bot accounts have no effect at all; a webhook is resolved exactly when the message triggers; a trigger resolves the webhook of the message's own channel and posts at most once, as the guild's ping-mode user taken from the mentions, only when the extracted reply is non-empty, and the post is that reply |
| Bot.MonologueCommand | bot.py:108-134 | `monologue` sends the notice and posts nothing exactly when a kept line lacks a colon; otherwise it posts `min(#lines, max_messages)` messages, the `i`-th being line `i` read as speaker and text |

## Left out

- Discord client setup, slash-command registration, `ctx.defer` and
  `ctx.send` (bot.py:28-38, 95-107, 137-149, 183-195, 201). These are
  platform I/O. The hidden replies appear as the `notice` of an `Outcome`.
- Webhook network calls (`channel.webhooks()`, `create_webhook`,
  `webhook.send`). These become the `Resolution` and the `Post` list of an
  `Outcome`.
- `channel.history(...)`. It becomes the newest-first `history` of a
  `Channel` record and the `Fetch` function.
- `run_gpt_inference` (helpers.py:18-29). It is an HTTP call, so it becomes
  the `Generator` parameter. Its fixed temperature (1.0) and top-p (0.9) are
  only passed through and are not modelled. A failing HTTP call raises
  an exception in the source, and the model has no exception path for it.
- Logging and `print` (bot.py:10-16, 35-38, 117, 174, 177). These are
  output only.
- models.py. It is an ORM schema with no operations. bot.py imports it and
  creates a database engine, but never uses either.
- keep_alive.py. It is a Flask liveness endpoint run on a thread.
- Text.IsWhitespace: it is the exact Python 3 `str.isspace()` set, listed by
  code point. Unicode database updates in later Python versions are not
  tracked.
- Monologue.Truncate: `max_messages` is a `nat`. A negative value from the
  command option, which Python would read as "drop from the end", is not
  modelled.
- PingMode.ImpersonationTarget: for a direct message (`message.guild` is
  `None`), the source raises `AttributeError` inside the handler, and the
  model returns no target. The effect is the same: nothing is posted.
- The `as_string=False` branch of `get_previous_messages` is
  `Transcript.PreviousMessages`. No caller in bot.py uses that branch.
- Bot.ReplyGeneration: `generate` stands for the text that one call to the
  generation service returned. The service samples (temperature 1.0, top-p
  0.9), so repeated calls on the same prompt may return different text. The
  model states what the prompt is built from (`Bot.ReplyPromptInputs`,
  `Bot.MonologuePromptInputs`), not that the generation is the same.
- Bot.MonologueCommand: the `Post` list is the sends the code attempts,
  assuming each one succeeds. A kept line such as `"alice:"` makes bot.py:133
  send an empty text, which the platform refuses. The handler then raises
  part-way through the loop: earlier posts stay, later ones and "Fake
  conversation sent!" never go out. The model has no failure path for a send.
- Webhooks.ResolveTwice: covers lookups made one after another. Handlers run
  as interleaved coroutines, so two triggers in one channel whose
  `channel.webhooks()` calls both come before a `create_webhook` each create
  a webhook. Concurrency is not modelled.
- Entities.Webhook: a created webhook's name is `str(channel.id)`. The
  source passes the integer id and the platform stores it as text.

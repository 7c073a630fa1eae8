/**
 Plain records standing in for the chat platform's objects the bot reads:
 users (message authors, mention targets, impersonation targets), channel
 messages, webhooks and channels. Only the fields the bot looks at are kept.
 */
module Entities {

  type GuildId = int
  type ChannelId = int
  type UserId = int

  /** A platform user: `id`, display `name`, `avatar_url`, and the `bot`
      flag that marks automated accounts. */
  datatype User = User(id: UserId, name: string, avatarUrl: string, isBot: bool)

  /** A message of a channel's history. */
  datatype Message = Message(author: User, content: string)

  /** A channel webhook; the bot only compares its `name`. */
  datatype Webhook = Webhook(id: int, name: string)

  /** A text channel: its id, the webhooks it already has, and its full
      message history, newest first (the order the platform returns it). */
  datatype Channel = Channel(id: ChannelId, webhooks: seq<Webhook>, history: seq<Message>)
}

/**
 Ping mode of bot.py: the in-memory map `ping_mode_users` from a guild to
 the one user the bot impersonates there, the `setuser` command that sets
 it, and the test in `on_message` that decides whether an incoming message
 triggers an impersonation.
 */
module PingMode {
  import opened Wrappers
  import opened Text
  import opened Entities

  /** `ping_mode_users`: guild id to the id of the user to impersonate. */
  type PingModeUsers = map<GuildId, UserId>

  /** An incoming message as `on_message` sees it. `guild` is `None` for a
      direct message; `mentions` is `message.mentions` in order; `channel`
      is the channel it was posted in. */
  datatype IncomingMessage = IncomingMessage(author: User, guild: Option<GuildId>, mentions: seq<User>, channel: Channel)

  /** `ping_mode_users[ctx.guild_id] = user.id`. */
  function SetUser(users: PingModeUsers, guild: GuildId, user: User): (users': PingModeUsers)
    ensures guild in users' && users'[guild] == user.id
    ensures users'.Keys == users.Keys + {guild}
    ensures forall g :: g in users && g != guild ==> users'[g] == users[g]
  {
    users[guild := user.id]
  }

  /** The `setuser` command's reply: a fixed opening, the user's name and
      a closing full stop, so the name can be read back from it. */
  function SetUserNotice(user: User): (r: string)
    ensures |r| == |user.name| + 15
    ensures StartsWith(r, "Impersonating ") && r[|r| - 1] == '.'
    ensures r[14..|r| - 1] == user.name
  {
    "Impersonating " + user.name + "."
  }

  /** Two replies are the same exactly when they name the same user name. */
  lemma SetUserNoticeNames(u1: User, u2: User)
    ensures SetUserNotice(u1) == SetUserNotice(u2) <==> u1.name == u2.name
  {
    var r1, r2 := SetUserNotice(u1), SetUserNotice(u2);
    if r1 == r2 {
      assert u1.name == r1[14..|r1| - 1] == u2.name;
    }
  }

  /** `{x.id: x for x in message.mentions}[id]`: a dict built from the
      mentions keeps, for each id, the last user listed with it. */
  function MentionWithId(mentions: seq<User>, id: UserId): (r: Option<User>)
    ensures r.None? <==> forall i :: 0 <= i < |mentions| ==> mentions[i].id != id
    ensures r.Some? ==> exists i :: 0 <= i < |mentions| && mentions[i] == r.value
                          && r.value.id == id
                          && forall j :: i < j < |mentions| ==> mentions[j].id != id
  {
    var k := LastWithId(mentions, id, |mentions|);
    if k < 0 then None else Some(mentions[k])
  }

  /** The position of the last of the first `n` mentions that carries `id`,
      or -1 when none does. */
  function LastWithId(mentions: seq<User>, id: UserId, n: nat): (k: int)
    requires n <= |mentions|
    ensures -1 <= k < n
    ensures k >= 0 ==> mentions[k].id == id
    ensures forall j :: k < j < n ==> mentions[j].id != id
  {
    if n == 0 then -1
    else if mentions[n - 1].id == id then n - 1
    else LastWithId(mentions, id, n - 1)
  }

  /** The checks at the top of `on_message`: the message is not the bot's
      own and not by any automated account. */
  predicate FromPerson(botId: UserId, msg: IncomingMessage)
  {
    msg.author.id != botId && !msg.author.isBot
  }

  /** Whom `on_message` impersonates in reply to `msg`, if anyone: the
      guild's ping-mode user, when the message is from a person, comes from
      a guild with an entry, and mentions that user. */
  function ImpersonationTarget(botId: UserId, users: PingModeUsers, msg: IncomingMessage): (r: Option<User>)
    ensures r.Some? <==>
      && FromPerson(botId, msg)
      && msg.guild.Some? && msg.guild.value in users
      && exists i :: 0 <= i < |msg.mentions| && msg.mentions[i].id == users[msg.guild.value]
    ensures r.Some? ==> r.value in msg.mentions && r.value.id == users[msg.guild.value]
  {
    if msg.author.id == botId then None
    else if msg.author.isBot then None
    else if msg.guild.None? then None
    else if msg.guild.value !in users then None
    else MentionWithId(msg.mentions, users[msg.guild.value])
  }

  /** Once `setuser` has picked `user` in a guild, a message by a person in
      that guild that mentions `user` triggers an impersonation of `user`
      (of the last mention carrying that id). */
  lemma SetUserThenMention(botId: UserId, users: PingModeUsers, guild: GuildId, user: User, msg: IncomingMessage)
    requires FromPerson(botId, msg)
    requires msg.guild == Some(guild)
    requires user in msg.mentions
    ensures ImpersonationTarget(botId, SetUser(users, guild, user), msg).Some?
    ensures ImpersonationTarget(botId, SetUser(users, guild, user), msg).value.id == user.id
  {
    var i :| 0 <= i < |msg.mentions| && msg.mentions[i] == user;
    assert msg.mentions[i].id == SetUser(users, guild, user)[guild];
  }

  /** `setuser` in one guild does not change who triggers in another. */
  lemma SetUserElsewhere(botId: UserId, users: PingModeUsers, guild: GuildId, user: User, msg: IncomingMessage)
    requires msg.guild.Some? && msg.guild.value != guild
    ensures ImpersonationTarget(botId, SetUser(users, guild, user), msg)
         == ImpersonationTarget(botId, users, msg)
  {
    var g := msg.guild.value;
    var users' := SetUser(users, guild, user);
    assert (g in users') == (g in users);
    if g in users {
      assert users'[g] == users[g];
    }
  }

  /** The last `setuser` in a guild wins. */
  lemma SetUserOverwrites(users: PingModeUsers, guild: GuildId, first: User, second: User)
    ensures SetUser(SetUser(users, guild, first), guild, second) == SetUser(users, guild, second)
  {
  }
}

/**
 `get_channel_webhook` of bot.py: reuse the channel's first webhook named
 after the channel id, and create one with that name only when none is.
 */
module Webhooks {
  import opened Wrappers
  import opened Entities
  import Decimal

  /** The name the bot gives a channel's webhook: `str(channel.id)`, which
      reads back as the channel id. */
  function WebhookName(channel: ChannelId): (name: string)
    ensures name != []
    ensures Decimal.ParseInt(name) == channel
  {
    Decimal.ParseShowInt(channel);
    Decimal.ShowInt(channel)
  }

  /** `next((x for x in webhooks if x.name == name), False)` as an index. */
  function FirstNamed(hooks: seq<Webhook>, name: string): (r: Option<nat>)
    ensures r.Some? ==> r.value < |hooks| && hooks[r.value].name == name
    ensures r.Some? ==> forall j :: 0 <= j < r.value ==> hooks[j].name != name
    ensures r.None? <==> forall j :: 0 <= j < |hooks| ==> hooks[j].name != name
  {
    if |hooks| == 0 then None
    else if hooks[0].name == name then Some(0)
    else
      match FirstNamed(hooks[1..], name)
      case None => None
      case Some(k) => Some(k + 1)
  }

  /** What `get_channel_webhook` does: use an existing webhook, or create
      a new one under the given name. */
  datatype Resolution = Existing(hook: Webhook) | Create(name: string)

  function ResolveWebhook(channel: ChannelId, hooks: seq<Webhook>): (r: Resolution)
    ensures r.Existing? <==> exists j :: 0 <= j < |hooks| && hooks[j].name == WebhookName(channel)
    ensures r.Existing? ==> exists i :: 0 <= i < |hooks| && hooks[i] == r.hook
                              && r.hook.name == WebhookName(channel)
                              && forall j :: 0 <= j < i ==> hooks[j].name != WebhookName(channel)
    ensures r.Create? ==> r.name == WebhookName(channel)
  {
    match FirstNamed(hooks, WebhookName(channel))
    case Some(i) => Existing(hooks[i])
    case None => Create(WebhookName(channel))
  }

  /** The webhook a resolution leaves the channel using, given the one the
      platform returns for a creation. */
  function Resolved(r: Resolution, created: Webhook): Webhook
  {
    match r
    case Existing(h) => h
    case Create(_) => created
  }

  /** Hooks after a resolution: a creation appends the new webhook. */
  function HooksAfter(hooks: seq<Webhook>, r: Resolution, created: Webhook): seq<Webhook>
  {
    match r
    case Existing(_) => hooks
    case Create(_) => hooks + [created]
  }

  /** Get-or-create is idempotent: once a channel's webhook has been
      created under its name, the next resolution reuses the same webhook
      and creates nothing. */
  lemma ResolveTwice(channel: ChannelId, hooks: seq<Webhook>, createdId: int)
    ensures var r := ResolveWebhook(channel, hooks);
      var created := Webhook(createdId, WebhookName(channel));
      ResolveWebhook(channel, HooksAfter(hooks, r, created)) == Existing(Resolved(r, created))
  {
    var name := WebhookName(channel);
    var r := ResolveWebhook(channel, hooks);
    var created := Webhook(createdId, name);
    if r.Create? {
      FirstNamedAppend(hooks, created, name);
    }
  }

  lemma FirstNamedAppend(hooks: seq<Webhook>, h: Webhook, name: string)
    requires FirstNamed(hooks, name).None?
    requires h.name == name
    ensures FirstNamed(hooks + [h], name) == Some(|hooks|)
  {
    var hooks' := hooks + [h];
    var r := FirstNamed(hooks', name);
    assert hooks'[|hooks|].name == name;
    assert r.Some?;
    assert forall j :: 0 <= j < |hooks| ==> hooks'[j].name != name;
  }

  /** Webhook names never collide across channels: distinct channel ids
      give distinct names, so a channel never picks up another channel's
      webhook. */
  lemma WebhookNamesDistinct(c1: ChannelId, c2: ChannelId)
    requires c1 != c2
    ensures WebhookName(c1) != WebhookName(c2)
  {
  }
}

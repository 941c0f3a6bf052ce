/**
 * The `/mr-teamup` command: `set-channel`, `enable` and `disable` each write one
 * field of the guild's reminder settings, and `status` only reads them.
 */
module MrTeamup {
  import opened JsValues
  import opened TeamupSettings

  datatype Subcommand = SetChannel(channelId: string) | Enable | Disable | Status | Unrecognised(name: string)

  /** The ephemeral reply, by its variable parts. `StatusReport.leadTime` is `None`
      when the configured minutes are not a number (the reply then shows `NaN`). */
  datatype Reply =
    | ServerOnly
    | ChannelSet(channel: string)
    | EnabledIn(channel: string)
    | DisabledNotice
    | StatusReport(remindersOn: bool, channel: string, leadTime: Option<int>)
    | NoReply

  const NoChannelYet := "no channel set yet"
  const ChannelNotSet := "not set"

  /** How a channel is written into a message: `<#id>`. */
  function Mention(channelId: Value): (m: string)
    ensures |m| >= 3 && m[0] == '<' && m[1] == '#' && m[|m| - 1] == '>'
  {
    "<#" + ToStr(channelId) + ">"
  }

  /** `Number(process.env.TEAMUP_REMINDER_MINUTES || "15")`; `env` is `""` when the
      variable is unset. */
  function ReminderMinutes(env: string): (m: Option<int>)
    ensures env == "" ==> m == Some(15)
    ensures env != "" ==> m == ToNumber(Str(env))
  {
    assert "15"[..1] == "1";
    ToNumber(Str(if env == "" then "15" else env))
  }

  /** The partial record a subcommand writes, or `None` when it writes nothing. */
  function WriteFor(sub: Subcommand): (w: Option<Record>)
    ensures sub.SetChannel? ==> w == Some(map["channelId" := Str(sub.channelId)])
    ensures sub.Enable? ==> w == Some(map["enabled" := Bool(true)])
    ensures sub.Disable? ==> w == Some(map["enabled" := Bool(false)])
    ensures sub.Status? || sub.Unrecognised? ==> w.None?
  {
    match sub
    case SetChannel(c) => Some(map["channelId" := Str(c)])
    case Enable => Some(map["enabled" := Bool(true)])
    case Disable => Some(map["enabled" := Bool(false)])
    case Status => None
    case Unrecognised(_) => None
  }

  /** The guild's record in `all`, `{}` when it has none. */
  function RecordOf(all: AllSettings, guildId: string): Record {
    if guildId in all then all[guildId] else map[]
  }

  /** The reply, given the settings as they stand after the subcommand's write. */
  function ReplyFor(after: AllSettings, guild: Option<string>, sub: Subcommand, env: string): (r: Reply)
    ensures guild.None? <==> r == ServerOnly
    ensures guild.Some? && sub.SetChannel? ==> r == ChannelSet(Mention(Str(sub.channelId)))
    ensures guild.Some? && sub.Enable? ==>
              var channelId := Field(RecordOf(after, guild.value), "channelId");
              && r.EnabledIn?
              && (Truthy(channelId) ==> r.channel == Mention(channelId))
              && (!Truthy(channelId) ==> r.channel == NoChannelYet)
    ensures guild.Some? && sub.Disable? ==> r == DisabledNotice
    ensures guild.Some? && sub.Status? ==>
              var rec := RecordOf(after, guild.value);
              && r.StatusReport?
              && (r.remindersOn <==> Truthy(Field(rec, "enabled")))
              && (r.channel == ChannelNotSet <==> !Truthy(Field(rec, "channelId")))
              && (Truthy(Field(rec, "channelId")) ==> r.channel == Mention(Field(rec, "channelId")))
              && r.leadTime == ReminderMinutes(env)
    ensures guild.Some? && sub.Unrecognised? ==> r == NoReply
  {
    if guild.None? then ServerOnly
    else
      var rec := RecordOf(after, guild.value);
      var channelId := Field(rec, "channelId");
      match sub
      case SetChannel(c) => ChannelSet(Mention(Str(c)))
      case Enable => EnabledIn(if Truthy(channelId) then Mention(channelId) else NoChannelYet)
      case Disable => DisabledNotice
      case Status =>
        StatusReport(Truthy(Field(rec, "enabled")),
                     if Truthy(channelId) then Mention(channelId) else ChannelNotSet,
                     ReminderMinutes(env))
      case Unrecognised(_) => NoReply
  }

  /** The settings after one command in a guild. */
  function Apply(all: AllSettings, guildId: string, sub: Subcommand): AllSettings {
    var w := WriteFor(sub);
    if w.Some? then Put(all, guildId, w.value) else all
  }

  /** `execute`: outside a guild nothing is written; otherwise the subcommand's
      one write is made and the reply is read off the settings it leaves. */
  method Execute(store: SettingsStore, guild: Option<string>, sub: Subcommand, env: string) returns (reply: Reply)
    modifies store
    ensures guild.None? ==> store.file == old(store.file)
    ensures guild.Some? && WriteFor(sub).None? ==> store.file == old(store.file)
    ensures guild.Some? && WriteFor(sub).Some? ==>
              store.file == Json(Apply(old(store.Stored()), guild.value, sub))
    ensures reply == ReplyFor(store.Stored(), guild, sub, env)
  {
    if guild.None? {
      return ServerOnly;
    }
    var guildId := guild.value;
    match sub {
      case SetChannel(c) =>
        var settings := store.SetGuildSettings(guildId, map["channelId" := Str(c)]);
        reply := ChannelSet(Mention(Str(c)));
      case Enable =>
        var settings := store.SetGuildSettings(guildId, map["enabled" := Bool(true)]);
        var channelId := Field(settings, "channelId");
        reply := EnabledIn(if Truthy(channelId) then Mention(channelId) else NoChannelYet);
      case Disable =>
        var settings := store.SetGuildSettings(guildId, map["enabled" := Bool(false)]);
        reply := DisabledNotice;
      case Status =>
        var found := store.GetGuildSettings(guildId);
        var settings := if found.Some? then found.value else map[];
        var channelId := Field(settings, "channelId");
        reply := StatusReport(Truthy(Field(settings, "enabled")),
                              if Truthy(channelId) then Mention(channelId) else ChannelNotSet,
                              ReminderMinutes(env));
      case Unrecognised(_) =>
        reply := NoReply;
    }
  }

  /** `set-channel` writes the channel only: `enabled` and every other field stay. */
  lemma SetChannelWritesOnlyChannel(all: AllSettings, guildId: string, c: string, key: string)
    requires key != "channelId"
    ensures Field(RecordOf(Apply(all, guildId, SetChannel(c)), guildId), "channelId") == Str(c)
    ensures Field(RecordOf(Apply(all, guildId, SetChannel(c)), guildId), key) == Field(RecordOf(all, guildId), key)
  {
  }

  /** `enable` and `disable` write the flag only: the channel and every other field stay. */
  lemma ToggleWritesOnlyFlag(all: AllSettings, guildId: string, on: bool, key: string)
    requires key != "enabled"
    ensures var sub := if on then Enable else Disable;
      && Field(RecordOf(Apply(all, guildId, sub), guildId), "enabled") == Bool(on)
      && Field(RecordOf(Apply(all, guildId, sub), guildId), key) == Field(RecordOf(all, guildId), key)
  {
  }

  /** `enable` names the channel when one is set, and says none is set otherwise. */
  lemma EnableReportsChannel(all: AllSettings, guildId: string, env: string)
    ensures var reply := ReplyFor(Apply(all, guildId, Enable), Some(guildId), Enable, env);
      reply == EnabledIn(if Truthy(Field(RecordOf(all, guildId), "channelId"))
                         then Mention(Field(RecordOf(all, guildId), "channelId")) else NoChannelYet)
  {
  }

  /** `status` of a guild with no record reports OFF and no channel. */
  lemma StatusWithoutRecord(all: AllSettings, guildId: string, env: string)
    requires guildId !in all
    ensures ReplyFor(all, Some(guildId), Status, env) == StatusReport(false, ChannelNotSet, ReminderMinutes(env))
  {
  }

  /** The lead time `status` reports comes from the environment, never from the store. */
  lemma StatusLeadTimeIgnoresStore(a: AllSettings, b: AllSettings, guildId: string, env: string)
    ensures ReplyFor(a, Some(guildId), Status, env).leadTime == ReplyFor(b, Some(guildId), Status, env).leadTime
    ensures ReplyFor(a, Some(guildId), Status, "").leadTime == Some(15)
  {
  }

  /** The settings after a series of commands in one guild. */
  function ApplyAll(all: AllSettings, guildId: string, subs: seq<Subcommand>): AllSettings
    decreases |subs|
  {
    if subs == [] then all else ApplyAll(Apply(all, guildId, subs[0]), guildId, subs[1..])
  }

  /** The value that the last command writing `key` wrote, if any. */
  function LastWrite(subs: seq<Subcommand>, key: string): Option<Value>
    decreases |subs|
  {
    if subs == [] then None
    else
      var last := subs[|subs| - 1];
      var w := WriteFor(last);
      if w.Some? && key in w.value then Some(w.value[key]) else LastWrite(subs[..|subs| - 1], key)
  }

  /** After any series of commands, each field holds what the last command writing
      it wrote, or what it held before when no command wrote it; other guilds'
      settings are untouched. */
  lemma {:induction false} ApplyAllFields(all: AllSettings, guildId: string, subs: seq<Subcommand>, key: string)
    ensures Field(RecordOf(ApplyAll(all, guildId, subs), guildId), key)
         == (var w := LastWrite(subs, key); if w.Some? then w.value else Field(RecordOf(all, guildId), key))
    ensures forall g :: g != guildId ==> (g in ApplyAll(all, guildId, subs) <==> g in all)
    ensures forall g :: g != guildId && g in all ==> ApplyAll(all, guildId, subs)[g] == all[g]
    decreases |subs|
  {
    if subs != [] {
      var init := subs[..|subs| - 1];
      var last := subs[|subs| - 1];
      assert subs == init + [last];
      ApplyAllSnoc(all, guildId, init, last);
      ApplyAllFields(all, guildId, init, key);
      var mid := ApplyAll(all, guildId, init);
      var w := WriteFor(last);
      if w.Some? {
        assert ApplyAll(all, guildId, subs) == Put(mid, guildId, w.value);
        assert RecordOf(Put(mid, guildId, w.value), guildId) == Merge(RecordOf(mid, guildId), w.value);
      } else {
        assert ApplyAll(all, guildId, subs) == mid;
      }
    }
  }

  lemma {:induction false} ApplyAllSnoc(all: AllSettings, guildId: string, init: seq<Subcommand>, last: Subcommand)
    ensures ApplyAll(all, guildId, init + [last]) == Apply(ApplyAll(all, guildId, init), guildId, last)
    decreases |init|
  {
    if init == [] {
      assert [last][1..] == [];
    } else {
      assert (init + [last])[1..] == init[1..] + [last];
      ApplyAllSnoc(Apply(all, guildId, init[0]), guildId, init[1..], last);
    }
  }

  /** Hence `status` after a series of commands reports ON exactly when the last
      `enable`/`disable` was `enable` (or, with neither, when it already was ON),
      and the channel of the last `set-channel`, or "not set" when that channel
      was empty. */
  lemma StatusAfterCommands(all: AllSettings, guildId: string, subs: seq<Subcommand>, env: string)
    ensures var reply := ReplyFor(ApplyAll(all, guildId, subs), Some(guildId), Status, env);
      && (LastWrite(subs, "enabled") == Some(Bool(true)) ==> reply.remindersOn)
      && (LastWrite(subs, "enabled") == Some(Bool(false)) ==> !reply.remindersOn)
      && (LastWrite(subs, "enabled").None? ==> reply.remindersOn == Truthy(Field(RecordOf(all, guildId), "enabled")))
      && (forall c :: LastWrite(subs, "channelId") == Some(Str(c)) && c != "" ==> reply.channel == Mention(Str(c)))
      && (LastWrite(subs, "channelId") == Some(Str("")) ==> reply.channel == ChannelNotSet)
  {
    ApplyAllFields(all, guildId, subs, "enabled");
    ApplyAllFields(all, guildId, subs, "channelId");
  }
}

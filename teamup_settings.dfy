/**
 * The reminder settings store: one JSON file holding a map from guild id to
 * that guild's settings record, read whole and rewritten whole on every write.
 */
module TeamupSettings {
  import opened JsValues

  /** The whole settings file once parsed: guild id to settings record. */
  type AllSettings = map<string, Record>

  /** What the settings file holds. Reading it fails when it is `Missing` (or
      otherwise unreadable) and when it is `Corrupt` (not JSON). */
  datatype SettingsFile = Missing | Corrupt | Json(all: AllSettings)

  /** What `readAll` returns: the parsed map, or `{}` when reading or parsing fails. */
  function ReadAllOf(file: SettingsFile): (all: AllSettings)
    ensures file.Json? ==> all == file.all
    ensures !file.Json? ==> all == map[]
  {
    if file.Json? then file.all else map[]
  }

  /** `all[guildId] || null`. */
  function Lookup(all: AllSettings, guildId: string): (r: Option<Record>)
    ensures r.None? <==> guildId !in all
    ensures r.Some? ==> r.value == all[guildId]
  {
    if guildId in all then Some(all[guildId]) else None
  }

  /** `{ ...current, ...partial }`: every key of `partial` takes its value from
      `partial`, every other key of `current` is kept, and nothing else is added. */
  function Merge(current: Record, partial: Record): (updated: Record)
    ensures updated.Keys == current.Keys + partial.Keys
    ensures forall k :: k in partial ==> updated[k] == partial[k]
    ensures forall k :: k in current && k !in partial ==> updated[k] == current[k]
  {
    current + partial
  }

  /** The map that `setGuildSettings(guildId, partial)` writes back. */
  function Put(all: AllSettings, guildId: string, partial: Record): (r: AllSettings)
    ensures r.Keys == all.Keys + {guildId}
    ensures r[guildId] == Merge(if guildId in all then all[guildId] else map[], partial)
    ensures forall g :: g in all && g != guildId ==> r[g] == all[g]
  {
    var current := if guildId in all then all[guildId] else map[];
    all[guildId := Merge(current, partial)]
  }

  /** Writing the same partial record twice leaves the same store as writing it once. */
  lemma PutIdempotent(all: AllSettings, guildId: string, partial: Record)
    ensures Put(Put(all, guildId, partial), guildId, partial) == Put(all, guildId, partial)
  {
    var once := Put(all, guildId, partial);
    var twice := Put(once, guildId, partial);
    assert Merge(once[guildId], partial) == once[guildId];
    assert twice.Keys == once.Keys;
  }

  /** Writes for two different guilds do not interfere: their order does not matter. */
  lemma PutCommutes(all: AllSettings, g: string, p: Record, h: string, q: Record)
    requires g != h
    ensures Put(Put(all, g, p), h, q) == Put(Put(all, h, q), g, p)
  {
    var left := Put(Put(all, g, p), h, q);
    var right := Put(Put(all, h, q), g, p);
    assert left.Keys == right.Keys;
    forall k | k in left.Keys ensures left[k] == right[k] {
    }
  }

  /** No defaults are filled in: a record is only ever the keys written to it. */
  lemma MergeAddsNoDefaults(current: Record, partial: Record, key: string)
    requires key !in current && key !in partial
    ensures key !in Merge(current, partial)
  {
  }

  /** Writing `{leadMinutes: 30}` over `{enabled: true, channelId: "X"}` keeps both
      fields and adds only `leadMinutes`; in particular no `category` appears. */
  lemma MergeExample()
    ensures Merge(map["enabled" := Bool(true), "channelId" := Str("X")], map["leadMinutes" := Num(30)])
         == map["enabled" := Bool(true), "channelId" := Str("X"), "leadMinutes" := Num(30)]
  {
  }

  /** The settings file as an object whose methods are the store's exported operations. */
  class SettingsStore {
    var file: SettingsFile

    constructor (file: SettingsFile)
      ensures this.file == file
    {
      this.file := file;
    }

    /** The map every read sees. */
    function Stored(): AllSettings
      reads this
    {
      ReadAllOf(file)
    }

    /** `readAll`: a missing or unparseable file reads as the empty map. */
    method ReadAll() returns (all: AllSettings)
      ensures all == Stored()
      ensures !file.Json? ==> all == map[]
    {
      if file.Json? {
        all := file.all;
      } else {
        all := map[];
      }
    }

    /** `getGuildSettings`: the guild's record, or `None` (the source's `null`) when it has none. */
    method GetGuildSettings(guildId: string) returns (r: Option<Record>)
      ensures r == Lookup(Stored(), guildId)
      ensures r.None? <==> guildId !in Stored()
    {
      var all := ReadAll();
      r := if guildId in all then Some(all[guildId]) else None;
    }

    /** `setGuildSettings`: shallow-merges `partial` into the guild's record and
        rewrites the whole file; the merged record is returned. */
    method SetGuildSettings(guildId: string, partial: Record) returns (updated: Record)
      modifies this
      ensures file == Json(Put(old(Stored()), guildId, partial))
      ensures updated == Stored()[guildId]
      ensures forall k :: k in partial ==> updated[k] == partial[k]
      ensures forall k :: k in old(Stored()) && k != guildId ==> k in Stored() && Stored()[k] == old(Stored())[k]
      ensures guildId in old(Stored()) ==> forall k :: k in old(Stored())[guildId] && k !in partial ==> updated[k] == old(Stored())[guildId][k]
    {
      var all := ReadAll();
      var current := if guildId in all then all[guildId] else map[];
      updated := current + partial;
      all := all[guildId := updated];
      file := Json(all);
    }

    /** `getAllGuildSettings`: the whole stored map. */
    method GetAllGuildSettings() returns (all: AllSettings)
      ensures all == Stored()
    {
      all := ReadAll();
    }
  }

  /** What `setGuildSettings` returns is what a following `getGuildSettings` returns. */
  lemma SetThenGet(all: AllSettings, guildId: string, partial: Record)
    ensures Lookup(Put(all, guildId, partial), guildId)
         == Some(Merge(if guildId in all then all[guildId] else map[], partial))
  {
  }

  /** A write over an unreadable or corrupt file keeps only the guild written:
      every other guild's settings are lost. */
  lemma WriteOverUnreadableFile(file: SettingsFile, guildId: string, partial: Record)
    requires !file.Json?
    ensures Put(ReadAllOf(file), guildId, partial) == map[guildId := partial]
  {
    assert Merge(map[], partial) == partial;
  }
}

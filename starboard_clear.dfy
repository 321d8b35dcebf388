/** The listener for the gateway's "all reactions removed from a message"
    event: it forgets the message's starboard entry in the guild's starboard
    cache, deletes the persisted starboard row, and deletes the message the
    starboard channel shows for it. It never rejects. */
module StarboardClear {
  import opened Common

  /** The `MESSAGE_REACTION_REMOVE_ALL` payload; `guild_id` may be missing. */
  datatype ReactionClearEvent = ReactionClearEvent(guildId: Option<Snowflake>, channelId: Snowflake, messageId: Snowflake)

  /** The columns a starboard row is selected by. */
  datatype RowKey = RowKey(guildId: Snowflake, messageId: Snowflake)

  /** The rest of a persisted starboard row. `starMessageId` is the message
      posted in the starboard channel, if one was. */
  datatype StarboardRow = StarboardRow(channelId: Snowflake, starMessageId: Option<Snowflake>, stars: nat)

  /** An entry of a guild's in-memory starboard cache. */
  datatype CacheKey = CacheKey(guildId: Snowflake, key: string)

  /** The key of a message in its guild's starboard cache: `${channel}-${message}`. */
  function MessageKey(channelId: Snowflake, messageId: Snowflake): string {
    channelId + "-" + messageId
  }

  /** Discord ids are decimal numbers: they never contain a dash. */
  predicate Dashless(s: string) {
    forall k :: 0 <= k < |s| ==> s[k] != '-'
  }

  /** In the key of a message whose channel id has no dash, the first dash
      follows the channel id. */
  lemma MessageKeyDash(c: Snowflake, m: Snowflake)
    requires Dashless(c)
    ensures var key := MessageKey(c, m);
      |c| < |key| && key[|c|] == '-' && forall k :: 0 <= k < |c| ==> key[k] != '-'
  {
    var key := MessageKey(c, m);
    forall k | 0 <= k < |c| ensures key[k] != '-' {
      assert key[k] == c[k];
    }
  }

  /** Keys of messages with dash-free channel ids are equal only for the
      same channel and message, so an eviction never hits another message. */
  lemma MessageKeyInjective(c1: Snowflake, m1: Snowflake, c2: Snowflake, m2: Snowflake)
    requires Dashless(c1) && Dashless(c2)
    ensures MessageKey(c1, m1) == MessageKey(c2, m2) <==> c1 == c2 && m1 == m2
  {
    var k1, k2 := MessageKey(c1, m1), MessageKey(c2, m2);
    if k1 == k2 {
      MessageKeyDash(c1, m1);
      MessageKeyDash(c2, m2);
      assert |c1| == |c2|;
      assert c1 == k1[..|c1|] && c2 == k2[..|c2|];
      assert m1 == k1[|c1| + 1..] && m2 == k2[|c2| + 1..];
    }
  }

  /** The audit-log reason sent with the remote delete. */
  const ClearReason: string := "Starboard Management: Reactions Cleared"

  /** What the listener does, in the order it does it. A query or a remote
      call is recorded when it is issued, whether or not it then fails. */
  datatype Effect =
    | CacheEvicted(entry: CacheKey)
    | RowsDeleted(guildId: Snowflake, messageId: Snowflake)
    | StarMessageDeleted(channelId: Snowflake, messageId: Snowflake, reason: string)

  /** How each awaited call ends: the delete query, `readSettings` for the
      starboard channel, and the remote message delete. */
  datatype Faults = Faults(store: Outcome, settings: Outcome, remoteDelete: Outcome)

  /** What the listener reads and changes: the guilds in the client's cache
      with the channels cached for each, the starboard cache (star counts by
      entry), the persisted rows, each guild's configured starboard channel,
      the errors reported and the effects issued. */
  datatype StarboardState = StarboardState(
    channels: map<Snowflake, set<Snowflake>>,
    cache: map<CacheKey, nat>,
    rows: map<RowKey, StarboardRow>,
    starboardChannels: map<Snowflake, Snowflake>,
    diagnostics: seq<Diagnostic>,
    effects: seq<Effect>)

  /** The guild's starboard channel setting; absent means null. */
  function ConfiguredChannel(s: StarboardState, guildId: Snowflake): Option<Snowflake> {
    if guildId in s.starboardChannels then Some(s.starboardChannels[guildId]) else None
  }

  /** The event names a guild, and a channel of it, the client has cached. */
  predicate Accepted(s: StarboardState, ev: ReactionClearEvent) {
    Present(ev.guildId) && ev.guildId.value in s.channels && ev.channelId in s.channels[ev.guildId.value]
  }

  function EntryOf(ev: ReactionClearEvent): CacheKey
    requires ev.guildId.Some?
  {
    CacheKey(ev.guildId.value, MessageKey(ev.channelId, ev.messageId))
  }

  function RowOf(ev: ReactionClearEvent): RowKey
    requires ev.guildId.Some?
  {
    RowKey(ev.guildId.value, ev.messageId)
  }

  /** The state after one run of the listener. */
  function Reconcile(s: StarboardState, ev: ReactionClearEvent, f: Faults): StarboardState {
    if !Accepted(s, ev) then s
    else
      var g, rk := ev.guildId.value, RowOf(ev);
      var queried := s.(cache := s.cache - {EntryOf(ev)},
                        effects := s.effects + [CacheEvicted(EntryOf(ev))] + [RowsDeleted(g, ev.messageId)]);
      if f.store.Failed? then queried.(diagnostics := s.diagnostics + [Fatal(f.store.error)])
      else if rk !in s.rows then queried
      else
        var row := s.rows[rk];
        var deleted := queried.(rows := s.rows - {rk});
        if f.settings.Failed? then deleted.(diagnostics := s.diagnostics + [Fatal(f.settings.error)])
        else
          var channel := ConfiguredChannel(s, g);
          if !Present(channel) || !Present(row.starMessageId) then deleted
          else
            var issued := deleted.(effects := deleted.effects
                                     + [StarMessageDeleted(channel.value, row.starMessageId.value, ClearReason)]);
            if f.remoteDelete.Failed? then issued.(diagnostics := s.diagnostics + [ClientError(f.remoteDelete.error)])
            else issued
  }

  /** The client's caches, the starboard cache, the starboard table and the
      settings, as the listener sees them. */
  class StarboardReconciler {
    var channels: map<Snowflake, set<Snowflake>>
    var cache: map<CacheKey, nat>
    var rows: map<RowKey, StarboardRow>
    var starboardChannels: map<Snowflake, Snowflake>
    var diagnostics: seq<Diagnostic>
    var effects: seq<Effect>

    function State(): StarboardState
      reads this
    {
      StarboardState(channels, cache, rows, starboardChannels, diagnostics, effects)
    }

    constructor (channels: map<Snowflake, set<Snowflake>>, cache: map<CacheKey, nat>,
                 rows: map<RowKey, StarboardRow>, starboardChannels: map<Snowflake, Snowflake>)
      ensures State() == StarboardState(channels, cache, rows, starboardChannels, [], [])
    {
      this.channels, this.cache, this.rows := channels, cache, rows;
      this.starboardChannels, diagnostics, effects := starboardChannels, [], [];
    }

    /** `UserListener.run`. */
    method Run(ev: ReactionClearEvent, faults: Faults)
      modifies this
      ensures State() == Reconcile(old(State()), ev, faults)
    {
      if ev.guildId.None? || ev.guildId.value == "" {
        return;
      }
      var g := ev.guildId.value;
      if g !in channels || ev.channelId !in channels[g] {
        return;
      }
      var entry := CacheKey(g, MessageKey(ev.channelId, ev.messageId));
      cache := cache - {entry};
      effects := effects + [CacheEvicted(entry)];
      // try
      effects := effects + [RowsDeleted(g, ev.messageId)];
      if faults.store.Failed? {
        diagnostics := diagnostics + [Fatal(faults.store.error)];
        return;
      }
      var rk := RowKey(g, ev.messageId);
      if rk !in rows {
        return;
      }
      var row := rows[rk];
      rows := rows - {rk};
      if faults.settings.Failed? {
        diagnostics := diagnostics + [Fatal(faults.settings.error)];
        return;
      }
      if g !in starboardChannels || starboardChannels[g] == "" {
        return;
      }
      var channel := starboardChannels[g];
      if row.starMessageId.Some? && row.starMessageId.value != "" {
        effects := effects + [StarMessageDeleted(channel, row.starMessageId.value, ClearReason)];
        if faults.remoteDelete.Failed? {
          diagnostics := diagnostics + [ClientError(faults.remoteDelete.error)];
        }
      }
    }
  }

  // ---------------------------------------------------------------------------
  // Properties of one run
  // ---------------------------------------------------------------------------

  /** An event without a guild id, or for a guild or channel the client has
      not cached, changes nothing at all. */
  lemma ReconcileIgnoresUnknown(s: StarboardState, ev: ReactionClearEvent, f: Faults)
    requires !Present(ev.guildId)
          || ev.guildId.value !in s.channels
          || ev.channelId !in s.channels[ev.guildId.value]
    ensures Reconcile(s, ev, f) == s
  {
  }

  /** An accepted event evicts its cache entry, and only that one, as its
      first effect, before the delete query is issued; the cache is not
      touched again. */
  lemma ReconcileEvictsFirst(s: StarboardState, ev: ReactionClearEvent, f: Faults)
    requires Accepted(s, ev)
    ensures var next := Reconcile(s, ev, f);
      && |next.effects| >= |s.effects| + 2
      && next.effects[..|s.effects| + 2]
         == s.effects + [CacheEvicted(EntryOf(ev)), RowsDeleted(ev.guildId.value, ev.messageId)]
      && EntryOf(ev) !in next.cache
      && forall k :: k != EntryOf(ev) ==> SameEntry(next.cache, s.cache, k)
  {
  }

  /** The rows left are the rows less the event's guild and message once
      the delete query succeeded, and all of them otherwise; every other row
      is untouched. */
  lemma ReconcileDeletesOnlyMatchingRow(s: StarboardState, ev: ReactionClearEvent, f: Faults)
    ensures var next := Reconcile(s, ev, f);
      && next.rows == (if Accepted(s, ev) && f.store.Succeeded? then s.rows - {RowOf(ev)} else s.rows)
      && (Accepted(s, ev) && f.store.Succeeded? ==> RowOf(ev) !in next.rows)
      && forall k :: (ev.guildId.None? || k != RowOf(ev)) ==> SameEntry(next.rows, s.rows, k)
  {
  }

  /** The remote delete is issued exactly when a row was deleted, the
      settings were read, a starboard channel is configured and the row has a
      star message, and it targets that channel and that message. No other
      effect follows the delete query. */
  lemma ReconcileRemoteDelete(s: StarboardState, ev: ReactionClearEvent, f: Faults)
    requires Accepted(s, ev)
    ensures var next := Reconcile(s, ev, f);
      var rk, channel := RowOf(ev), ConfiguredChannel(s, ev.guildId.value);
      var deletes := f.store.Succeeded? && rk in s.rows && f.settings.Succeeded?
                     && Present(channel) && Present(s.rows[rk].starMessageId);
      next.effects == s.effects + [CacheEvicted(EntryOf(ev)), RowsDeleted(ev.guildId.value, ev.messageId)]
        + (if deletes then [StarMessageDeleted(channel.value, s.rows[rk].starMessageId.value, ClearReason)] else [])
  {
  }

  /** Every failure is caught: a rejected query or settings read is logged
      as fatal, a rejected remote delete is emitted as an error, and a run
      reports nothing else. */
  lemma ReconcileSwallowsFailures(s: StarboardState, ev: ReactionClearEvent, f: Faults)
    ensures var next := Reconcile(s, ev, f);
      var rk := if ev.guildId.Some? then RowOf(ev) else RowKey("", "");
      var issued := Accepted(s, ev) && f.store.Succeeded? && rk in s.rows && f.settings.Succeeded?
                    && Present(ConfiguredChannel(s, ev.guildId.value)) && Present(s.rows[rk].starMessageId);
      next.diagnostics == s.diagnostics
        + (if !Accepted(s, ev) then []
           else if f.store.Failed? then [Fatal(f.store.error)]
           else if rk !in s.rows then []
           else if f.settings.Failed? then [Fatal(f.settings.error)]
           else if issued && f.remoteDelete.Failed? then [ClientError(f.remoteDelete.error)]
           else [])
  {
  }

  /** A message that has no starboard row: the query deletes nothing, no
      remote delete is issued and nothing is reported. */
  lemma ReconcileUnstarredMessage(s: StarboardState, ev: ReactionClearEvent, f: Faults)
    requires Accepted(s, ev) && f.store.Succeeded? && RowOf(ev) !in s.rows
    ensures var next := Reconcile(s, ev, f);
      && next.rows == s.rows
      && next.diagnostics == s.diagnostics
      && next.effects == s.effects + [CacheEvicted(EntryOf(ev)), RowsDeleted(ev.guildId.value, ev.messageId)]
  {
  }

  /** A run never changes which guilds and channels are cached, or the settings. */
  lemma ReconcileKeepsCaches(s: StarboardState, ev: ReactionClearEvent, f: Faults)
    ensures Reconcile(s, ev, f).channels == s.channels
    ensures Reconcile(s, ev, f).starboardChannels == s.starboardChannels
  {
  }

  /** A run deletes one row when the accepted event's row exists and the
      query succeeds, and none otherwise. */
  lemma ReconcileRowCount(s: StarboardState, ev: ReactionClearEvent, f: Faults)
    ensures var deleted := Accepted(s, ev) && f.store.Succeeded? && RowOf(ev) in s.rows;
      |Reconcile(s, ev, f).rows| == |s.rows| - (if deleted then 1 else 0)
  {
    ReconcileDeletesOnlyMatchingRow(s, ev, f);
    if Accepted(s, ev) && f.store.Succeeded? {
      if RowOf(ev) in s.rows {
        MapRemoveCount(s.rows, RowOf(ev));
      } else {
        assert s.rows - {RowOf(ev)} == s.rows;
      }
    }
  }

  lemma MapRemoveCount<K, V>(m: map<K, V>, k: K)
    requires k in m
    ensures |m - {k}| == |m| - 1
  {
    assert m.Keys == (m - {k}).Keys + {k};
  }

  /** Running again for the same event after a run whose query succeeded
      deletes no row and issues no remote delete, whatever the second run's
      calls do. */
  lemma ReconcileIdempotent(s: StarboardState, ev: ReactionClearEvent, f1: Faults, f2: Faults)
    requires f1.store.Succeeded?
    ensures var first := Reconcile(s, ev, f1);
      var second := Reconcile(first, ev, f2);
      && second.rows == first.rows
      && second.cache == first.cache
      && forall k :: |first.effects| <= k < |second.effects| ==> !second.effects[k].StarMessageDeleted?
  {
    var first := Reconcile(s, ev, f1);
    var second := Reconcile(first, ev, f2);
    if Accepted(s, ev) {
      ReconcileKeepsCaches(s, ev, f1);
      ReconcileDeletesOnlyMatchingRow(s, ev, f1);
      ReconcileEvictsFirst(s, ev, f1);
      ReconcileDeletesOnlyMatchingRow(first, ev, f2);
      ReconcileEvictsFirst(first, ev, f2);
      ReconcileRemoteDelete(first, ev, f2);
      assert second.rows == first.rows;
      assert second.cache == first.cache;
    }
  }

  /** A starred message whose reactions are cleared: its cache entry goes
      first, then its row, then the star message in the configured channel. */
  lemma ReconcileStarredExample()
    ensures var s := StarboardState(map["G1" := {"C1"}], map[CacheKey("G1", "C1-M1") := 3],
                                    map[RowKey("G1", "M1") := StarboardRow("C1", Some("123"), 3)],
                                    map["G1" := "555"], [], []);
      var next := Reconcile(s, ReactionClearEvent(Some("G1"), "C1", "M1"), Faults(Succeeded, Succeeded, Succeeded));
      && next.effects == [CacheEvicted(CacheKey("G1", "C1-M1")), RowsDeleted("G1", "M1"),
                          StarMessageDeleted("555", "123", ClearReason)]
      && next.cache == map[] && next.rows == map[] && next.diagnostics == []
  {
    assert MessageKey("C1", "M1") == "C1-M1";
  }
}

/**
 * The bot's event and command handlers over its store.
 *
 * `Store` holds the four tables the handlers read and write through the
 * database module. Each handler is a method whose new state is tied to a
 * function of `Counting` on the old state, so the lemmas proved there apply.
 * Calls into the chat platform (creating and positioning a channel, looking
 * a channel up) become parameters.
 */
module Bot {

  import opened Wrappers
  import opened Parsing
  import opened Counting

  /** The reply to the create-channel command. */
  datatype CreateReply = Created(channel: ChannelId) | CreateFailed

  /** The reply to the current-number command. */
  datatype NumberReply = CurrentIs(number: int) | NotCounting

  class Store {

    var stored: map<ChannelId, int>
    var lastUser: map<ChannelId, UserId>
    var userCount: map<(UserId, GuildId), nat>
    var guildChannels: map<GuildId, seq<ChannelId>>

    /** The store's content as a value. */
    function Snapshot(): Tables
      reads this
    {
      Tables(stored, lastUser, userCount, guildChannels)
    }

    ghost predicate Valid()
      reads this
    {
      Consistent(Snapshot())
    }

    constructor ()
      ensures Valid()
      ensures Snapshot() == Tables(map[], map[], map[], map[])
    {
      stored, lastUser, userCount, guildChannels := map[], map[], map[], map[];
    }

    /**
     * The message-received handler. Bot messages are ignored without reading
     * the store. Otherwise the expected number is the stored number plus one;
     * a message whose leading count equals it, from someone other than the
     * channel's last poster, is accepted: the channel's number becomes the
     * count plus one, its last poster the author, and the author's count in
     * the guild goes up by one. Anything else is rejected and nothing is written.
     */
    method OnMessage(channel: ChannelId, guild: GuildId, author: UserId, isBot: bool, text: string)
      returns (e: Effect)
      requires Valid()
      requires isBot || channel in stored
      modifies this
      ensures Valid()
      ensures e == Verdict(old(Snapshot()), Message(channel, guild, author, isBot, text))
      ensures Snapshot() == Next(old(Snapshot()), Message(channel, guild, author, isBot, text))
      ensures guildChannels == old(guildChannels)
      ensures e != Accept ==> stored == old(stored) && lastUser == old(lastUser) && userCount == old(userCount)
      ensures e == Accept ==>
        && stored == old(stored)[channel := old(stored)[channel] + 2]
        && lastUser == old(lastUser)[channel := author]
        && userCount == old(userCount)[(author, guild) := CountOf(old(Snapshot()), author, guild) + 1]
    {
      ghost var before := Snapshot();
      ghost var m := Message(channel, guild, author, isBot, text);
      if isBot {
        return Ignore;
      }
      var current := stored[channel] + 1;
      var parsed := ParseCount(text);
      if parsed.Some? {
        var num := parsed.value;
        var last := if channel in lastUser then Some(lastUser[channel]) else None;
        if num == current && last != Some(author) {
          e := Accept;
          stored := stored[channel := current + 1];
          lastUser := lastUser[channel := author];
          var key := (author, guild);
          var count := if key in userCount then userCount[key] else 0;
          userCount := userCount[key := count + 1];
        } else {
          e := Reject;
        }
      } else {
        e := Reject;
      }
      assert Snapshot() == Next(before, m);
      NextConsistent(before, m);
    }

    /**
     * The create-channel command. `created` is the channel the platform made
     * (`None` when creating it raised) and `positioned` whether moving it to
     * the top succeeded. Only when both succeeded is the channel registered
     * for the guild and given number 1; otherwise the store is untouched.
     */
    method CreateChannel(guild: GuildId, created: Option<ChannelId>, positioned: bool)
      returns (reply: CreateReply)
      requires Valid()
      modifies this
      ensures Valid()
      ensures reply == if created.Some? && positioned then Created(created.value) else CreateFailed
      ensures reply.Created? ==> Snapshot() == Register(old(Snapshot()), guild, reply.channel)
      ensures reply.CreateFailed? ==> Snapshot() == old(Snapshot())
    {
      if created.None? || !positioned {
        return CreateFailed;
      }
      var channel := created.value;
      RegisterConsistent(Snapshot(), guild, channel);
      var listed := if guild in guildChannels then guildChannels[guild] else [];
      guildChannels := guildChannels[guild := listed + [channel]];
      stored := stored[channel := 1];
      lastUser := lastUser - {channel};
      reply := Created(channel);
    }

    /** The channel-deleted event: a registered channel's record is deleted, any other event changes nothing. */
    method OnChannelDelete(channel: ChannelId)
      requires Valid()
      modifies this
      ensures Valid()
      ensures Snapshot() == if channel in old(stored) then Forget(old(Snapshot()), channel) else old(Snapshot())
    {
      if channel in stored {
        ForgetConsistent(Snapshot(), channel);
        stored := stored - {channel};
        lastUser := lastUser - {channel};
        guildChannels := map g | g in guildChannels :: Without(guildChannels[g], channel);
      }
    }

    /**
     * The current-number command: the stored number of a counting channel,
     * which is one less than the number its next post must carry.
     */
    method CurrentNumber(channel: ChannelId) returns (reply: NumberReply)
      ensures reply.CurrentIs? <==> channel in stored
      ensures reply.CurrentIs? ==> reply.number == stored[channel] && reply.number + 1 == Expected(Snapshot(), channel)
    {
      if channel in stored {
        reply := CurrentIs(stored[channel]);
      } else {
        reply := NotCounting;
      }
    }

    /**
     * The autocomplete of the current-number command: the guild's registered
     * channels, in registry order, that the platform resolves to a text channel.
     */
    method CountingChannels(guild: GuildId, isTextChannel: ChannelId -> bool) returns (choices: seq<ChannelId>)
      ensures choices == Filter(ListedIn(Snapshot(), guild), isTextChannel)
      ensures forall c :: c in choices <==> c in ListedIn(Snapshot(), guild) && isTextChannel(c)
    {
      var listed := if guild in guildChannels then guildChannels[guild] else [];
      choices := [];
      for i := 0 to |listed|
        invariant choices == Filter(listed[..i], isTextChannel)
      {
        FilterAppend(listed[..i], [listed[i]], isTextChannel);
        assert listed[..i + 1] == listed[..i] + [listed[i]];
        if isTextChannel(listed[i]) {
          choices := choices + [listed[i]];
        }
      }
      assert listed[..|listed|] == listed;
    }
  }

  /**
   * Turns on a new channel, following the handlers' arithmetic: the channel
   * is stored at 1, so its first accepted post is 2, and each accepted post
   * moves the stored number on by 2.
   */
  method SessionTurns()
  {
    var store := new Store();
    var reply := store.CreateChannel(1, Some(7), true);
    assert reply == Created(7);
    var shown := store.CurrentNumber(7);
    assert shown == CurrentIs(1);

    assert ParseCount("2") == Some(2) by {
      ParseCountOfDecimal(2, ' ', "");
      assert Decimal(2) == "2";
    }
    var e := store.OnMessage(7, 1, 100, false, "2");
    assert e == Accept;
    assert store.stored[7] == 3 && store.lastUser[7] == 100;
    SessionNextTurn(store);
  }

  /** After 100 posted 2 in channel 7, 100 may not post 4 but 101 may. */
  method SessionNextTurn(store: Store)
    requires store.Valid() && 7 in store.stored && store.stored[7] == 3
    requires LastUser(store.Snapshot(), 7) == Some(100)
    modifies store
  {
    var e;
    assert ParseCount("4") == Some(4) by {
      ParseCountOfDecimal(4, ' ', "");
      assert Decimal(4) == "4";
    }
    e := store.OnMessage(7, 1, 100, false, "4");
    assert e == Reject;
    e := store.OnMessage(7, 1, 101, false, "4");
    assert e == Accept;
    assert store.stored[7] == 5 && store.lastUser[7] == 101;
  }

  /** Malformed posts and bot posts leave a channel alone; after deletion it is no longer a counting channel. */
  method SessionRejects(store: Store)
    requires store.Valid() && 7 in store.stored
    modifies store
  {
    var before := store.stored[7];
    ParseCountRejectsExamples();
    var e := store.OnMessage(7, 1, 102, false, "5nice");
    assert e == Reject;
    e := store.OnMessage(7, 1, 102, true, "6");
    assert e == Ignore;
    assert store.stored[7] == before;

    store.OnChannelDelete(7);
    var shown := store.CurrentNumber(7);
    assert shown == NotCounting;
  }
}

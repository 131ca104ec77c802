/**
 * The counting-game rule of the message handler, on values.
 *
 * `Tables` is the content of the bot's store: the number stored for each
 * counting channel, its last accepted poster, the per-user-per-guild counts
 * and the guild-to-channel registry. `Verdict` decides what a message does,
 * `Next` is the store after it, and `Run` folds `Next` over a sequence of
 * messages. The lemmas relate a run to the posts that were accepted in it.
 */
module Counting {

  import opened Wrappers
  import opened Parsing

  type ChannelId = nat
  type GuildId = nat
  type UserId = nat

  /** A message-received event, as the handler sees it. */
  datatype Message = Message(channel: ChannelId, guild: GuildId, author: UserId, isBot: bool, text: string)

  /** What the handler asks of the chat layer: nothing, a check mark, or a cross plus deletion. */
  datatype Effect = Ignore | Accept | Reject

  datatype Tables = Tables(
    stored: map<ChannelId, int>,
    lastUser: map<ChannelId, UserId>,
    userCount: map<(UserId, GuildId), nat>,
    guildChannels: map<GuildId, seq<ChannelId>>)

  /** The last accepted poster of a channel; `None` for a null column. */
  function LastUser(t: Tables, c: ChannelId): Option<UserId> {
    if c in t.lastUser then Some(t.lastUser[c]) else None
  }

  /** A user's count in a guild; a missing row reads as 0. */
  function CountOf(t: Tables, u: UserId, g: GuildId): nat {
    if (u, g) in t.userCount then t.userCount[(u, g)] else 0
  }

  /** The channels registered for a guild, in registration order. */
  function ListedIn(t: Tables, g: GuildId): seq<ChannelId> {
    if g in t.guildChannels then t.guildChannels[g] else []
  }

  /** The number the handler asks for next: the stored number plus one. */
  function Expected(t: Tables, c: ChannelId): int
    requires c in t.stored
  {
    t.stored[c] + 1
  }

  /**
   * The handler can process `m` without failing: bot messages return before
   * the store is read, and every other message must be in a registered
   * channel, because one is added to the looked-up number before it is compared with null.
   */
  predicate Handled(t: Tables, m: Message) {
    m.isBot || m.channel in t.stored
  }

  /**
   * The store is consistent: every stored number is at least 1, a last
   * poster exists only for a registered channel, and the registry lists
   * exactly the registered channels.
   */
  ghost predicate Consistent(t: Tables) {
    && (forall c :: c in t.stored ==> t.stored[c] >= 1)
    && t.lastUser.Keys <= t.stored.Keys
    && (forall g, i :: g in t.guildChannels && 0 <= i < |t.guildChannels[g]| ==> t.guildChannels[g][i] in t.stored)
    && (forall c :: c in t.stored ==> exists g :: g in t.guildChannels && c in t.guildChannels[g])
  }

  /** The effect of a message. */
  function Verdict(t: Tables, m: Message): Effect
    requires Handled(t, m)
  {
    if m.isBot then Ignore
    else
      match ParseCount(m.text)
      case None => Reject
      case Some(n) =>
        if n == Expected(t, m.channel) && LastUser(t, m.channel) != Some(m.author) then Accept else Reject
  }

  /** The store after a message: an accepted post writes the channel record and the author's count. */
  function Next(t: Tables, m: Message): (r: Tables)
    requires Handled(t, m)
    ensures r.stored.Keys == t.stored.Keys
  {
    if Verdict(t, m) == Accept then
      var n := ParseCount(m.text).value;
      t.(stored := t.stored[m.channel := n + 1],
         lastUser := t.lastUser[m.channel := m.author],
         userCount := t.userCount[(m.author, m.guild) := CountOf(t, m.author, m.guild) + 1])
    else
      t
  }

  /**
   * A message is accepted exactly when it is from a person, the pattern
   * matches it with group 1 worth the expected number, and its author is not
   * the channel's last poster.
   */
  lemma AcceptRule(t: Tables, m: Message)
    requires Handled(t, m)
    ensures Verdict(t, m) == Ignore <==> m.isBot
    ensures Verdict(t, m) == Accept <==>
      && !m.isBot
      && (exists k :: PatternMatch(m.text, k) && DecimalValue(m.text[..k]) == Expected(t, m.channel))
      && LastUser(t, m.channel) != Some(m.author)
  {
    if !m.isBot && Expected(t, m.channel) >= 0 {
      ParseCountMeaning(m.text, Expected(t, m.channel));
    }
  }

  /** The correct number from the channel's last poster is turned away. */
  lemma RepeatAuthorRejected(t: Tables, m: Message)
    requires Handled(t, m) && !m.isBot
    requires ParseCount(m.text) == Some(Expected(t, m.channel))
    requires LastUser(t, m.channel) == Some(m.author)
    ensures Verdict(t, m) == Reject && Next(t, m) == t
  {
  }

  /**
   * What one message writes. Nothing is written unless it is accepted; an
   * accepted post sets its channel's number to the posted number plus one and
   * its last poster to the author, and adds one to the author's count in the
   * message's guild. Every other channel, every other count and the registry
   * keep their values.
   */
  lemma StepWrites(t: Tables, m: Message)
    requires Handled(t, m)
    ensures var r := Next(t, m);
      && r.guildChannels == t.guildChannels
      && (forall c :: c != m.channel && c in t.stored ==> r.stored[c] == t.stored[c])
      && (forall c :: c != m.channel ==> LastUser(r, c) == LastUser(t, c))
      && (forall u: UserId, g: GuildId :: (u, g) != (m.author, m.guild) ==> CountOf(r, u, g) == CountOf(t, u, g))
      && (Verdict(t, m) != Accept ==> r == t)
      && (Verdict(t, m) == Accept ==>
            && r.stored[m.channel] == ParseCount(m.text).value + 1
            && r.stored[m.channel] == t.stored[m.channel] + 2
            && LastUser(r, m.channel) == Some(m.author)
            && CountOf(r, m.author, m.guild) == CountOf(t, m.author, m.guild) + 1)
  {
  }

  lemma NextConsistent(t: Tables, m: Message)
    requires Consistent(t) && Handled(t, m)
    ensures Consistent(Next(t, m))
  {
    var r := Next(t, m);
    forall c | c in r.stored
      ensures exists g :: g in r.guildChannels && c in r.guildChannels[g]
    {
      var g :| g in t.guildChannels && c in t.guildChannels[g];
      assert g in r.guildChannels && c in r.guildChannels[g];
    }
  }

  /** Every message of `ms` can be processed, starting from `t`. */
  predicate AllHandled(t: Tables, ms: seq<Message>) {
    forall i :: 0 <= i < |ms| ==> Handled(t, ms[i])
  }

  /** The store after processing `ms` one message after another. */
  function Run(t: Tables, ms: seq<Message>): (r: Tables)
    requires AllHandled(t, ms)
    ensures r.stored.Keys == t.stored.Keys
    decreases |ms|
  {
    if ms == [] then t
    else
      AllHandledTail(t, ms);
      Run(Next(t, ms[0]), ms[1..])
  }

  lemma AllHandledTail(t: Tables, ms: seq<Message>)
    requires ms != [] && AllHandled(t, ms)
    ensures Handled(t, ms[0]) && AllHandled(Next(t, ms[0]), ms[1..])
  {
    forall i | 0 <= i < |ms[1..]|
      ensures Handled(Next(t, ms[0]), ms[1..][i])
    {
      assert Handled(t, ms[i + 1]);
    }
  }

  /** The authors of the posts accepted in channel `c` during a run, in order. */
  function AuthorsIn(t: Tables, ms: seq<Message>, c: ChannelId): seq<UserId>
    requires AllHandled(t, ms)
    decreases |ms|
  {
    if ms == [] then []
    else
      AllHandledTail(t, ms);
      var m := ms[0];
      (if m.channel == c && Verdict(t, m) == Accept then [m.author] else [])
        + AuthorsIn(Next(t, m), ms[1..], c)
  }

  /** The number of posts by `u` in guild `g` accepted during a run. */
  function AcceptedBy(t: Tables, ms: seq<Message>, u: UserId, g: GuildId): nat
    requires AllHandled(t, ms)
    decreases |ms|
  {
    if ms == [] then 0
    else
      AllHandledTail(t, ms);
      var m := ms[0];
      (if m.author == u && m.guild == g && Verdict(t, m) == Accept then 1 else 0)
        + AcceptedBy(Next(t, m), ms[1..], u, g)
  }

  /** No two consecutive authors are the same, and the first differs from `prev`. */
  predicate Alternating(authors: seq<UserId>, prev: Option<UserId>)
    decreases |authors|
  {
    authors == [] || (prev != Some(authors[0]) && Alternating(authors[1..], Some(authors[0])))
  }

  /** Over a run, each accepted post in a channel adds 2 to its stored number. */
  lemma {:induction false} RunStored(t: Tables, ms: seq<Message>, c: ChannelId)
    requires AllHandled(t, ms) && c in t.stored
    ensures Run(t, ms).stored[c] == t.stored[c] + 2 * |AuthorsIn(t, ms, c)|
    decreases |ms|
  {
    if ms != [] {
      AllHandledTail(t, ms);
      StepWrites(t, ms[0]);
      RunStored(Next(t, ms[0]), ms[1..], c);
    }
  }

  /**
   * Turn alternation over a run: the accepted posters of a channel never
   * repeat back to back, and the first of them differs from the poster the
   * channel had before the run.
   */
  lemma {:induction false} RunAlternates(t: Tables, ms: seq<Message>, c: ChannelId)
    requires AllHandled(t, ms)
    ensures Alternating(AuthorsIn(t, ms, c), LastUser(t, c))
    decreases |ms|
  {
    if ms != [] {
      AllHandledTail(t, ms);
      var m := ms[0];
      var t' := Next(t, m);
      StepWrites(t, m);
      RunAlternates(t', ms[1..], c);
      var rest := AuthorsIn(t', ms[1..], c);
      if m.channel == c && Verdict(t, m) == Accept {
        assert AuthorsIn(t, ms, c) == [m.author] + rest;
        assert ([m.author] + rest)[1..] == rest;
      } else {
        assert AuthorsIn(t, ms, c) == rest;
      }
    }
  }

  /** After a run, a channel's last poster is its last accepted author, if it had one. */
  lemma {:induction false} RunLastUser(t: Tables, ms: seq<Message>, c: ChannelId)
    requires AllHandled(t, ms)
    ensures var authors := AuthorsIn(t, ms, c);
      LastUser(Run(t, ms), c) == if authors == [] then LastUser(t, c) else Some(authors[|authors| - 1])
    decreases |ms|
  {
    if ms != [] {
      AllHandledTail(t, ms);
      StepWrites(t, ms[0]);
      RunLastUser(Next(t, ms[0]), ms[1..], c);
    }
  }

  /**
   * Over a run, a user's count in a guild grows by exactly the number of
   * their posts accepted in that guild: no count moves without an accepted post.
   */
  lemma {:induction false} RunUserCount(t: Tables, ms: seq<Message>, u: UserId, g: GuildId)
    requires AllHandled(t, ms)
    ensures CountOf(Run(t, ms), u, g) == CountOf(t, u, g) + AcceptedBy(t, ms, u, g)
    decreases |ms|
  {
    if ms != [] {
      AllHandledTail(t, ms);
      StepWrites(t, ms[0]);
      RunUserCount(Next(t, ms[0]), ms[1..], u, g);
    }
  }

  /** A run of messages keeps the store consistent and never touches the registry. */
  lemma {:induction false} RunConsistent(t: Tables, ms: seq<Message>)
    requires Consistent(t) && AllHandled(t, ms)
    ensures Consistent(Run(t, ms))
    ensures Run(t, ms).guildChannels == t.guildChannels
    decreases |ms|
  {
    if ms != [] {
      AllHandledTail(t, ms);
      NextConsistent(t, ms[0]);
      StepWrites(t, ms[0]);
      RunConsistent(Next(t, ms[0]), ms[1..]);
    }
  }

  /** The ids of `s` that `keep` accepts, in the order of `s`. */
  function Filter(s: seq<ChannelId>, keep: ChannelId -> bool): (r: seq<ChannelId>)
    ensures forall x :: x in r <==> x in s && keep(x)
    ensures |r| <= |s|
  {
    if s == [] then []
    else (if keep(s[0]) then [s[0]] else []) + Filter(s[1..], keep)
  }

  /** Filtering a concatenation filters each part in turn, so the filter keeps the order of `s`. */
  lemma {:induction false} FilterAppend(a: seq<ChannelId>, b: seq<ChannelId>, keep: ChannelId -> bool)
    ensures Filter(a + b, keep) == Filter(a, keep) + Filter(b, keep)
  {
    if a != [] {
      assert (a + b)[1..] == a[1..] + b;
      FilterAppend(a[1..], b, keep);
    } else {
      assert a + b == b;
    }
  }

  lemma FilterOne(x: ChannelId, keep: ChannelId -> bool)
    ensures Filter([x], keep) == if keep(x) then [x] else []
  {
    assert [x][1..] == [];
  }

  /** A list whose ids `keep` all accepts is its own filter. */
  lemma {:induction false} FilterAll(s: seq<ChannelId>, keep: ChannelId -> bool)
    requires forall i :: 0 <= i < |s| ==> keep(s[i])
    ensures Filter(s, keep) == s
  {
    if s != [] {
      assert keep(s[0]);
      FilterAll(s[1..], keep);
      assert [s[0]] + s[1..] == s;
    }
  }

  /** `s` with every occurrence of `c` taken out, order kept. */
  function Without(s: seq<ChannelId>, c: ChannelId): seq<ChannelId> {
    Filter(s, x => x != c)
  }

  /**
   * The registry after a counting channel was created in guild `g`: the
   * channel is appended to the guild's list and starts at number 1 with no
   * last poster.
   */
  function Register(t: Tables, g: GuildId, c: ChannelId): Tables {
    t.(guildChannels := t.guildChannels[g := ListedIn(t, g) + [c]],
       stored := t.stored[c := 1],
       lastUser := t.lastUser - {c})
  }

  /** The store after channel `c`'s record was deleted. */
  function Forget(t: Tables, c: ChannelId): Tables {
    t.(stored := t.stored - {c},
       lastUser := t.lastUser - {c},
       guildChannels := map g | g in t.guildChannels :: Without(t.guildChannels[g], c))
  }

  /**
   * Registering a channel makes it a counting channel at number 1 with no
   * last poster, listed last for its guild; every other channel's record,
   * every other guild's list and every count keep their values.
   */
  lemma RegisterEffect(t: Tables, g: GuildId, c: ChannelId)
    ensures var r := Register(t, g, c);
      && r.stored.Keys == t.stored.Keys + {c}
      && r.stored[c] == 1 && Expected(r, c) == 2 && LastUser(r, c) == None
      && ListedIn(r, g) == ListedIn(t, g) + [c]
      && (forall h :: h != g ==> ListedIn(r, h) == ListedIn(t, h))
      && (forall d :: d != c && d in t.stored ==> r.stored[d] == t.stored[d])
      && (forall d :: d != c ==> LastUser(r, d) == LastUser(t, d))
      && r.userCount == t.userCount
  {
  }

  lemma RegisterConsistent(t: Tables, g: GuildId, c: ChannelId)
    requires Consistent(t)
    ensures Consistent(Register(t, g, c))
  {
    var r := Register(t, g, c);
    assert c in r.guildChannels[g];
    forall d | d in r.stored
      ensures exists h :: h in r.guildChannels && d in r.guildChannels[h]
    {
      if d != c {
        var h :| h in t.guildChannels && d in t.guildChannels[h];
        assert d in r.guildChannels[h];
      }
    }
    forall h, i | h in r.guildChannels && 0 <= i < |r.guildChannels[h]|
      ensures r.guildChannels[h][i] in r.stored
    {
      if h == g && i < |ListedIn(t, g)| {
        assert r.guildChannels[h][i] == ListedIn(t, g)[i];
      }
    }
  }

  /**
   * Deleting a channel's record unregisters exactly that channel and
   * unlists it from every guild; every other record, list entry and count stays.
   */
  lemma ForgetEffect(t: Tables, c: ChannelId)
    ensures var r := Forget(t, c);
      && r.stored.Keys == t.stored.Keys - {c}
      && (forall d :: d in r.stored ==> r.stored[d] == t.stored[d])
      && LastUser(r, c) == None
      && (forall d :: d != c ==> LastUser(r, d) == LastUser(t, d))
      && (forall g :: ListedIn(r, g) == Without(ListedIn(t, g), c))
      && (forall g, d :: d in ListedIn(r, g) <==> d in ListedIn(t, g) && d != c)
      && r.userCount == t.userCount
  {
  }

  /**
   * Deleting a channel listed once for a guild takes it out of that guild's
   * list and leaves the guild's other channels where they were.
   */
  lemma ForgetKeepsOrder(t: Tables, c: ChannelId, g: GuildId, before: seq<ChannelId>, after: seq<ChannelId>)
    requires ListedIn(t, g) == before + [c] + after && c !in before && c !in after
    ensures ListedIn(Forget(t, c), g) == before + after
  {
    var listed := before + [c] + after;
    assert c in listed;
    ForgetEffect(t, c);
    WithoutSplit(before, after, c);
  }

  lemma WithoutSplit(before: seq<ChannelId>, after: seq<ChannelId>, c: ChannelId)
    requires c !in before && c !in after
    ensures Without(before + [c] + after, c) == before + after
  {
    WithoutAppend(before + [c], after, c);
    WithoutAppend(before, [c], c);
    WithoutAbsent(before, c);
    WithoutAbsent(after, c);
    WithoutSelf(c);
  }

  lemma WithoutSelf(c: ChannelId)
    ensures Without([c], c) == []
  {
    FilterOne(c, x => x != c);
  }

  /** Taking `c` out of a concatenation takes it out of each part in turn. */
  lemma WithoutAppend(a: seq<ChannelId>, b: seq<ChannelId>, c: ChannelId)
    ensures Without(a + b, c) == Without(a, c) + Without(b, c)
  {
    FilterAppend(a, b, x => x != c);
  }

  /** Taking out a channel that is not listed changes nothing. */
  lemma WithoutAbsent(s: seq<ChannelId>, c: ChannelId)
    requires c !in s
    ensures Without(s, c) == s
  {
    FilterAll(s, x => x != c);
  }

  lemma ForgetConsistent(t: Tables, c: ChannelId)
    requires Consistent(t)
    ensures Consistent(Forget(t, c))
  {
    var r := Forget(t, c);
    forall d | d in r.stored
      ensures exists h :: h in r.guildChannels && d in r.guildChannels[h]
    {
      var h :| h in t.guildChannels && d in t.guildChannels[h];
      assert d in r.guildChannels[h];
    }
    forall h, i | h in r.guildChannels && 0 <= i < |r.guildChannels[h]|
      ensures r.guildChannels[h][i] in r.stored
    {
      assert r.guildChannels[h][i] in r.guildChannels[h];
    }
  }

  /** In a consistent store an unregistered channel is in no guild's list. */
  lemma UnregisteredUnlisted(t: Tables, c: ChannelId)
    requires Consistent(t) && c !in t.stored
    ensures forall g :: g in t.guildChannels ==> c !in t.guildChannels[g]
  {
  }

  /** Deleting an unregistered channel's record from a consistent store changes nothing. */
  lemma ForgetUnregistered(t: Tables, c: ChannelId)
    requires Consistent(t) && c !in t.stored
    ensures Forget(t, c) == t
  {
    UnregisteredUnlisted(t, c);
    ForgetUnlisted(t, c);
  }

  lemma ForgetUnlisted(t: Tables, c: ChannelId)
    requires c !in t.stored && c !in t.lastUser
    requires forall g :: g in t.guildChannels ==> c !in t.guildChannels[g]
    ensures Forget(t, c) == t
  {
    var r := Forget(t, c);
    forall g | g in t.guildChannels
      ensures r.guildChannels[g] == t.guildChannels[g]
    {
      WithoutAbsent(t.guildChannels[g], c);
    }
    assert r.guildChannels == t.guildChannels;
    assert r.stored == t.stored;
    assert r.lastUser == t.lastUser;
  }
}

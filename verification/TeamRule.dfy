/** The rule that teammates are never published as bots: the local team and the per-player records
 * of radar_tick in source/daemon/radar_reader.c, over the ticks since a cache reset. */
module TeamRule {
  import opened Bytes
  import opened Wrappers
  import opened MetadataCache
  import opened RemoteMemory

  const MAX_PLAYERS := 100

  /** uint32_t; 0 is no team. */
  type Team = t: nat | t < TWO_32

  /** An address the level scan lets into the list of characters. */
  type Actor = a: nat | ValidPtr(a) witness 0x1001

  /** A character met by a tick: what its player state, if it has one, reads as. */
  datatype Seen = Seen(actor: Actor, hasState: bool, team: Team, rawBot: bool, name: seq<byte>)

  /** The characters of one tick that get a record: the frame has room for 100. */
  type Tick = seen: seq<Seen> | |seen| <= MAX_PLAYERS

  /** Team and bot flag. */
  type Meta = (Team, bool)

  // ---------- One tick ----------

  /** The team put in the frame: the one just read, or the last one that could be read. */
  function LocalTeam(sticky: Team, read: Team): Team
  {
    if read > 0 then read else sticky
  }

  predicate TeammateBot(local: Team, e: Entry<Meta>)
  {
    local != 0 && e.value.0 == local && e.value.1
  }

  /** The record of a character without a cached one. */
  function Fresh(local: Team, s: Seen): (e: Entry<Meta>)
    ensures !TeammateBot(local, e)
  {
    var team := if s.hasState then s.team else 0;
    var bot := s.hasState && s.rawBot && !(local != 0 && team == local);
    Entry((team, bot), Cut(s.name, NAME_LENGTH))
  }

  datatype Outcome = Outcome(cache: map<nat, Entry<Meta>>, published: seq<Entry<Meta>>)

  /** The records published for the characters of one tick, in order. */
  function Publish(cache: map<nat, Entry<Meta>>, local: Team, seen: seq<Seen>): Outcome
  {
    if seen == [] then Outcome(cache, [])
    else
      var before := Publish(cache, local, seen[..|seen| - 1]);
      var s := seen[|seen| - 1];
      if s.actor in before.cache then Outcome(before.cache, before.published + [before.cache[s.actor]])
      else
        var e := Fresh(local, s);
        Outcome(Put(before.cache, PLAYERS, s.actor, e), before.published + [e])
  }

  predicate Clean(local: Team, published: seq<Entry<Meta>>)
  {
    forall j :: 0 <= j < |published| ==> !TeammateBot(local, published[j])
  }

  /** A local team no cached record offends keeps being respected. */
  ghost predicate Respects(cache: map<nat, Entry<Meta>>, local: Team)
  {
    forall a :: a in cache ==> !TeammateBot(local, cache[a])
  }

  lemma {:induction false} PublishClean(cache: map<nat, Entry<Meta>>, local: Team, seen: seq<Seen>)
    requires Respects(cache, local)
    ensures var o := Publish(cache, local, seen); Respects(o.cache, local) && Clean(local, o.published)
  {
    if seen != [] {
      PublishClean(cache, local, seen[..|seen| - 1]);
    }
  }

  lemma {:induction false} PublishedOne(cache: map<nat, Entry<Meta>>, local: Team, seen: seq<Seen>)
    ensures var o := Publish(cache, local, seen);
      && |o.published| == |seen|
      && (forall a :: a in o.cache ==> a in cache || exists i :: 0 <= i < |seen| && seen[i].actor == a)
      && (forall a :: a in cache ==> a in o.cache && o.cache[a] == cache[a])
  {
    if seen != [] {
      var front := seen[..|seen| - 1];
      PublishedOne(cache, local, front);
      forall a | a in Publish(cache, local, seen).cache
        ensures a in cache || exists i :: 0 <= i < |seen| && seen[i].actor == a
      {
        if a !in cache && a in Publish(cache, local, front).cache {
          var i :| 0 <= i < |front| && front[i].actor == a;
          assert seen[i].actor == a;
        } else if a !in cache {
          assert seen[|seen| - 1].actor == a;
        }
      }
    }
  }

  /**
   * A character met for the first time is published with its own team, the first 31 bytes of its name and
   * its own bot flag, unless it is a teammate; without a player state it has neither team nor flag. One
   * with a cached record is published as that record.
   */
  lemma {:induction false} PublishedAs(cache: map<nat, Entry<Meta>>, local: Team, seen: seq<Seen>, j: nat)
    requires j < |seen|
    ensures |Publish(cache, local, seen).published| == |seen|
    ensures var e, s := Publish(cache, local, seen).published[j], seen[j];
      if s.actor in cache then e == cache[s.actor]
      else if forall i :: 0 <= i < j ==> seen[i].actor != s.actor then
        && e.value.0 == (if s.hasState then s.team else 0)
        && (e.value.1 <==> s.hasState && s.rawBot && (local == 0 || s.team != local))
        && e.name == (if |s.name| <= 31 then s.name else s.name[..31])
      else true
    decreases |seen|
  {
    var front := seen[..|seen| - 1];
    PublishedOne(cache, local, seen);
    PublishedOne(cache, local, front);
    if j < |front| {
      PublishedAs(cache, local, front, j);
      assert Publish(cache, local, seen).published[j] == Publish(cache, local, front).published[j];
    } else {
      PublishedLast(cache, local, seen);
    }
  }

  lemma PublishedLast(cache: map<nat, Entry<Meta>>, local: Team, seen: seq<Seen>)
    requires seen != []
    ensures |Publish(cache, local, seen).published| == |seen|
    ensures var front, s := seen[..|seen| - 1], seen[|seen| - 1];
      var held := Publish(cache, local, front).cache;
      Publish(cache, local, seen).published[|seen| - 1]
      == if s.actor in held then held[s.actor] else Fresh(local, s)
  {
    PublishedOne(cache, local, seen[..|seen| - 1]);
  }

  // ---------- Runs of ticks ----------

  /** The local teams of the frames, given what each tick could read (0: nothing). */
  function Teams(sticky: Team, polled: seq<Team>): (teams: seq<Team>)
    ensures |teams| == |polled|
    decreases |polled|
  {
    if polled == [] then []
    else [LocalTeam(sticky, polled[0])] + Teams(LocalTeam(sticky, polled[0]), polled[1..])
  }

  /** That is the team read at that tick, else the frame's before it, else the one at the start. */
  lemma {:induction false} TeamsAre(sticky: Team, polled: seq<Team>, i: nat)
    requires i < |polled|
    ensures var teams := Teams(sticky, polled);
      teams[i] == if polled[i] != 0 then polled[i] else if i > 0 then teams[i - 1] else sticky
    decreases i
  {
    if i > 0 {
      TeamsAre(LocalTeam(sticky, polled[0]), polled[1..], i - 1);
    }
  }

  /** No tick of the run publishes a teammate as a bot. */
  predicate RunClean(cache: map<nat, Entry<Meta>>, teams: seq<Team>, world: seq<Tick>)
    requires |world| == |teams|
    decreases |teams|
  {
    teams != [] ==>
      var o := Publish(cache, teams[0], world[0]);
      Clean(teams[0], o.published) && RunClean(o.cache, teams[1..], world[1..])
  }

  predicate Constant(teams: seq<Team>)
  {
    forall i :: 0 <= i < |teams| ==> teams[i] == teams[0]
  }

  lemma {:induction false} ConstantIsClean(cache: map<nat, Entry<Meta>>, local: Team, teams: seq<Team>,
        world: seq<Tick>)
    requires |world| == |teams| && Respects(cache, local)
    requires forall i :: 0 <= i < |teams| ==> teams[i] == local
    ensures RunClean(cache, teams, world)
    decreases |teams|
  {
    if teams != [] {
      PublishClean(cache, local, world[0]);
      ConstantIsClean(Publish(cache, local, world[0]).cache, local, teams[1..], world[1..]);
    }
  }

  /** The team only ever changes to one that was read: never back to 0. */
  lemma {:induction false} ChangesAreReads(sticky: Team, polled: seq<Team>, i: nat)
    requires i + 1 < |polled|
    requires Teams(sticky, polled)[i] != Teams(sticky, polled)[i + 1]
    ensures Teams(sticky, polled)[i + 1] != 0
    decreases i
  {
    var local := LocalTeam(sticky, polled[0]);
    assert Teams(sticky, polled)[1..] == Teams(local, polled[1..]);
    if i > 0 {
      ChangesAreReads(local, polled[1..], i - 1);
    } else {
      assert Teams(local, polled[1..])[0] == LocalTeam(local, polled[1]);
    }
  }

  /** A character of the later team, flagged as a bot, seen just before and just after the change. */
  function Witness(teams: seq<Team>, i: nat): (world: seq<Tick>)
    requires i + 1 < |teams|
    ensures |world| == |teams|
  {
    seq(|teams|, k => if k == i || k == i + 1 then [Seen(0x10000, true, teams[i + 1], true, [])] else [])
  }

  lemma {:induction false} WitnessIsNotClean(teams: seq<Team>, world: seq<Tick>, i: nat)
    requires i + 1 < |teams| && teams[i] != teams[i + 1] && teams[i + 1] != 0
    requires world == Witness(teams, i)
    ensures !RunClean(map[], teams, world)
    decreases i
  {
    var s := Seen(0x10000, true, teams[i + 1], true, []);
    if i == 0 {
      assert world[0] == [s] && world[1] == [s];
      SeenTwice(teams[0], teams[1], s);
      assert teams[1..][0] == teams[1] && world[1..][0] == world[1];
    } else {
      assert world[0] == [];
      assert world[1..] == Witness(teams[1..], i - 1);
      WitnessIsNotClean(teams[1..], world[1..], i - 1);
    }
  }

  lemma SeenTwice(first: Team, second: Team, s: Seen)
    requires first != second && second != 0 && s.hasState && s.team == second && s.rawBot
    ensures var o := Publish(map[], first, [s]);
      var p := Publish(o.cache, second, [s]);
      !Clean(second, p.published)
  {
    assert [s][..0] == [];
    var e := Fresh(first, s);
    var o := Publish(map[], first, [s]);
    assert Publish(map[], first, []) == Outcome(map[], []);
    assert o.cache == map[s.actor := e];
    assert Publish(o.cache, second, []) == Outcome(o.cache, []);
    assert Publish(o.cache, second, [s]).published == [e];
    assert TeammateBot(second, [e][0]);
  }

  /**
   * From a cache reset on: no world at all makes a tick publish a teammate as a bot exactly when
   * the frame's local team is the same in every tick. A team first read after the reset is a
   * change, since the cached records were made without it.
   */
  lemma CleanExactlyWhileTheTeamStays(sticky: Team, polled: seq<Team>)
    ensures (forall world: seq<Tick> :: |world| == |polled| ==> RunClean(map[], Teams(sticky, polled), world))
      <==> Constant(Teams(sticky, polled))
  {
    var teams := Teams(sticky, polled);
    if Constant(teams) {
      forall world: seq<Tick> | |world| == |polled|
        ensures RunClean(map[], teams, world)
      {
        ConstantIsClean(map[], if teams == [] then 0 else teams[0], teams, world);
      }
    } else {
      var i := FirstChange(teams);
      ChangesAreReads(sticky, polled, i);
      WitnessIsNotClean(teams, Witness(teams, i), i);
    }
  }

  lemma {:induction false} FirstChange(teams: seq<Team>) returns (i: nat)
    requires !Constant(teams)
    ensures i + 1 < |teams| && teams[i] != teams[i + 1]
  {
    if teams[0] != teams[1] {
      i := 0;
    } else {
      var k :| 0 <= k < |teams| && teams[k] != teams[0];
      assert teams[1..][k - 1] != teams[1..][0];
      var later := FirstChange(teams[1..]);
      i := later + 1;
    }
  }

  // ---------- The loop of the source ----------

  /** The record building of radar_tick, on the cache array. */
  method PublishPlayers(cache: Cache<Meta>, local: Team, seen: Tick) returns (published: seq<Entry<Meta>>)
    requires cache.Valid() && cache.rows.Length == 512
    modifies cache, cache.rows
    ensures cache.Valid()
    ensures cache.Contents() == Publish(old(cache.Contents()), local, seen).cache
    ensures published == Publish(old(cache.Contents()), local, seen).published
  {
    published := [];
    ghost var start := cache.Contents();
    for i := 0 to |seen|
      invariant cache.Valid()
      invariant cache.Contents() == Publish(start, local, seen[..i]).cache
      invariant published == Publish(start, local, seen[..i]).published
    {
      assert seen[..i + 1][..i] == seen[..i];
      var s := seen[i];
      var meta := cache.Find(s.actor);
      if meta.Some? {
        published := published + [meta.value];
      } else {
        var team: Team, bot := 0, false;
        if s.hasState {
          team, bot := s.team, s.rawBot;
          if local != 0 && team == local { bot := false; }
        }
        if local != 0 && team == local { bot := false; }
        var name := Cut(s.name, NAME_LENGTH);
        cache.Store(s.actor, (team, bot), name);
        published := published + [Entry((team, bot), name)];
      }
    }
    assert seen[..|seen|] == seen;
  }
}

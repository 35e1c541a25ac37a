/**
 What a clear leaves behind (script/github-guild-board.py): the issue is up for grabs,
 and the sweep leaves it alone until a guild member is assigned again.
 */
module GuildAfter {
  import opened Wrappers
  import opened Guild

  lemma {:induction false} WithinNone(logins: seq<Login>, kept: set<Login>)
    requires forall x :: x in logins ==> x !in kept
    ensures Within(logins, kept) == []
  {
    if logins != [] {
      assert logins[0] in logins;
      WithinNone(logins[1..], kept);
    }
  }

  lemma ClearedColumn(guild: set<Login>, item: Item, now: Time, at: Time)
    requires Judge(guild, item, now).Clear?
    ensures var next := Apply(guild, item, Sweep(now, at));
            && (next.status == Some(ShipFeature) <==> item.kind == Some(Feature))
            && (next.status == Some(BugBashers) <==>
                  item.kind == Some(Bug) || item.kind == Some(Docs) || item.kind == Some(Crash))
            && (next.status == Some(InProgress) <==> item.kind == None || item.kind == Some(OtherType))
            && next == item.(assignees := next.assignees, status := next.status)
  {
  }

  // No guild member is assigned.
  ghost predicate Unmanned(guild: set<Login>, item: Item) {
    forall x :: x in item.assignees ==> x !in guild
  }

  lemma UnmannedStep(guild: set<Login>, item: Item, e: Event)
    requires Unmanned(guild, item) && (e.Assigned? ==> e.who !in guild)
    ensures Unmanned(guild, Apply(guild, item, e))
    ensures e.Sweep? ==> Apply(guild, item, e) == item
  {
    WithinNone(item.assignees, guild);
  }

  lemma {:induction false} UnmannedRun(guild: set<Login>, item: Item, events: seq<Event>)
    requires Unmanned(guild, item)
    requires forall i :: 0 <= i < |events| && events[i].Assigned? ==> events[i].who !in guild
    ensures Unmanned(guild, Run(guild, item, events))
    decreases |events|
  {
    if events != [] {
      UnmannedStep(guild, item, events[0]);
      UnmannedRun(guild, Apply(guild, item, events[0]), events[1..]);
    }
  }

  /** A clear puts the issue back in the column of its type, unless that is unknown, and changes nothing else
      but the assignees. Whatever follows, until a guild member is assigned every sweep skips the issue. */
  lemma ClearedIsLeftAlone(
      guild: set<Login>, item: Item, now: Time, at: Time, events: seq<Event>, later: Time)
    requires Judge(guild, item, now).Clear?
    requires forall i :: 0 <= i < |events| && events[i].Assigned? ==> events[i].who !in guild
    ensures var next := Apply(guild, item, Sweep(now, at));
            && Judge(guild, Run(guild, next, events), later) == Skip
            && (next.status == Some(ShipFeature) <==> item.kind == Some(Feature))
            && (next.status == Some(BugBashers) <==>
                  item.kind == Some(Bug) || item.kind == Some(Docs) || item.kind == Some(Crash))
            && (next.status == Some(InProgress) <==> item.kind == None || item.kind == Some(OtherType))
            && next == item.(assignees := next.assignees, status := next.status)
  {
    var next := Apply(guild, item, Sweep(now, at));
    ClearTakesTheGuild(guild, item, now, at);
    UnmannedRun(guild, next, events);
    WithinNone(Run(guild, next, events).assignees, guild);
    ClearedColumn(guild, item, now, at);
  }
}

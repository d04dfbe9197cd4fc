/** Roster membership windows of the player directory, and what the ledger's membership test makes of them. */
module Windows {
  import opened Directories
  import opened Games
  import opened Wrappers
  import Sorting

  type TeamId = Option<int>
  /** A roster row: whose, and on which team. */
  datatype Slot = Slot(player: string, team: TeamId)
  /** A row with its start: the player's first dated game for the team, when one is known. */
  datatype Entry = Entry(slot: Slot, first: Option<int>)
  type Timing = map<Slot, int>
  datatype Window = Window(from: int, to: int, resolvable: bool)
  type Table = map<Slot, Window>

  // ---- one player ----

  function EntryOf(slot: Slot, timing: Timing): Entry {
    Entry(slot, if slot in timing then Some(timing[slot]) else None)
  }

  /** A player's rows, in roster order. */
  function Group(roster: seq<Slot>, timing: Timing, player: string): (members: seq<Entry>)
    ensures forall m <- members :: m.slot.player == player && m.slot in roster && m == EntryOf(m.slot, timing)
  {
    if roster == [] then []
    else
      var slot := roster[|roster| - 1];
      Group(roster[..|roster| - 1], timing, player) + if slot.player == player then [EntryOf(slot, timing)] else []
  }

  /** Every start is known and no two are equal. */
  predicate Safe(members: seq<Entry>) {
    && (forall m <- members :: m.first.Some?)
    && forall i, j :: 0 <= i < j < |members| ==> members[i].first != members[j].first
  }

  predicate StartsEarlier(m: Entry, n: Entry) {
    m.first.Some? && n.first.Some? && m.first.value < n.first.value
  }

  function Sort(members: seq<Entry>): (s: seq<Entry>)
    ensures multiset(s) == multiset(members) && |s| == |members|
    ensures forall m :: m in s <==> m in members
  {
    Sorting.SortPermutes(StartsEarlier, members);
    Sorting.Sort(StartsEarlier, members)
  }

  /** Known starts, strictly rising. */
  predicate Rising(ordered: seq<Entry>) {
    && (forall m <- ordered :: m.first.Some?)
    && forall i, j :: 0 <= i < j < |ordered| ==> ordered[i].first.value < ordered[j].first.value
  }

  lemma SortRising(members: seq<Entry>)
    requires Safe(members)
    ensures Rising(Sort(members))
  {
    forall i, j | 0 <= i < j < |members|
      ensures StartsEarlier(members[i], members[j]) || StartsEarlier(members[j], members[i])
    {
      assert members[i] in members && members[j] in members;
    }
    Sorting.SortOrders(StartsEarlier, members);
    assert Sorting.Ordered(StartsEarlier, Sort(members));
  }

  /** The windows of ordered members: each runs to the next start, the first from the season's start, the last to its
      end. */
  function WindowAt(ordered: seq<Entry>, i: nat, start: int, end: int): Window
    requires i < |ordered| && forall m <- ordered :: m.first.Some?
  {
    Window(if i == 0 then start else ordered[i].first.value,
           if i + 1 < |ordered| then ordered[i + 1].first.value else end, true)
  }

  predicate Holds(w: Window, t: int) {
    w.from <= t < w.to
  }

  /** Windows never overlap, wherever the starts lie. */
  lemma WindowsDisjoint(ordered: seq<Entry>, i: nat, j: nat, start: int, end: int, t: int)
    requires Rising(ordered) && i < j < |ordered| && Holds(WindowAt(ordered, i, start, end), t)
    ensures !Holds(WindowAt(ordered, j, start, end), t)
  {
    assert ordered[i + 1].first.value <= ordered[j].first.value;
  }

  /** The window that holds an instant of the season, searched from the last. */
  function Holder(ordered: seq<Entry>, n: nat, t: int): (i: nat)
    requires 0 < n <= |ordered| && forall m <- ordered :: m.first.Some?
    ensures i < n && (i > 0 ==> ordered[i].first.value <= t)
    ensures forall k :: i < k < n ==> t < ordered[k].first.value
  {
    if n == 1 || ordered[n - 1].first.value <= t then n - 1 else Holder(ordered, n - 1, t)
  }

  /** Every instant of the season lies in exactly one window, even if some first game lies outside the season. */
  lemma SeasonPartitioned(ordered: seq<Entry>, start: int, end: int, t: int)
    requires Rising(ordered) && ordered != [] && start <= t < end
    ensures var i := Holder(ordered, |ordered|, t);
            && Holds(WindowAt(ordered, i, start, end), t)
            && forall j :: 0 <= j < |ordered| && Holds(WindowAt(ordered, j, start, end), t) ==> j == i
  {
    var i := Holder(ordered, |ordered|, t);
    forall j | 0 <= j < |ordered| && j != i && Holds(WindowAt(ordered, j, start, end), t)
      ensures false
    {
      WindowsDisjoint(ordered, if i < j then i else j, if i < j then j else i, start, end, t);
    }
  }

  ghost predicate Within(ordered: seq<Entry>, start: int, end: int)
    requires forall m <- ordered :: m.first.Some?
  {
    forall i, t :: 0 <= i < |ordered| && Holds(WindowAt(ordered, i, start, end), t) ==> start <= t < end
  }

  /** No window reaches outside the season exactly when the second start is not before the season and the last is not
      after it; the first start does not matter. */
  lemma WithinExactlyWhen(ordered: seq<Entry>, start: int, end: int)
    requires Rising(ordered) && ordered != [] && start < end
    ensures Within(ordered, start, end) <==>
            |ordered| == 1 || (start <= ordered[1].first.value && ordered[|ordered| - 1].first.value <= end)
  {
    var n := |ordered|;
    if n > 1 {
      var second, last := ordered[1].first.value, ordered[n - 1].first.value;
      if second < start {
        assert Holds(WindowAt(ordered, 1, start, end), second);
      } else if end < last {
        var t := last - 1;
        assert Holds(WindowAt(ordered, n - 2, start, end), t);
      } else {
        forall i, t | 0 <= i < n && Holds(WindowAt(ordered, i, start, end), t)
          ensures start <= t < end
        {
          assert i > 0 ==> second <= ordered[i].first.value;
          assert i + 1 < n ==> ordered[i + 1].first.value <= last;
        }
      }
    }
  }

  // ---- the table ----

  function Full(table: Table, members: seq<Entry>, n: nat, start: int, end: int): Table
    requires n <= |members|
  {
    if n == 0 then table else Full(table, members, n - 1, start, end)[members[n - 1].slot := Window(start, end, false)]
  }

  function Assigned(table: Table, ordered: seq<Entry>, n: nat, start: int, end: int): Table
    requires n <= |ordered| && forall m <- ordered :: m.first.Some?
  {
    if n == 0 then table
    else Assigned(table, ordered, n - 1, start, end)[ordered[n - 1].slot := WindowAt(ordered, n - 1, start, end)]
  }

  /** What one player's rows add to the table. */
  function Added(table: Table, members: seq<Entry>, start: int, end: int): Table {
    if |members| == 1 then table[members[0].slot := Window(start, end, true)]
    else if !Safe(members) then Full(table, members, |members|, start, end)
    else Assigned(table, Sort(members), |members|, start, end)
  }

  method AddWindows(table: Table, members: seq<Entry>, start: int, end: int) returns (grown: Table)
    ensures grown == Added(table, members, start, end)
  {
    grown := table;
    if |members| == 1 {
      grown := grown[members[0].slot := Window(start, end, true)];
    } else if !Safe(members) {
      for i := 0 to |members|
        invariant grown == Full(table, members, i, start, end)
      {
        grown := grown[members[i].slot := Window(start, end, false)];
      }
    } else {
      var ordered := Sort(members);
      for i := 0 to |ordered|
        invariant grown == Assigned(table, ordered, i, start, end)
      {
        grown := grown[ordered[i].slot := WindowAt(ordered, i, start, end)];
      }
    }
  }

  function WindowsOf(members: seq<Entry>, start: int, end: int): Table {
    Added(map[], members, start, end)
  }

  function Find(table: Table, slot: Slot): Option<Window> {
    if slot in table then Some(table[slot]) else None
  }

  lemma {:induction false} FullLocal(table: Table, members: seq<Entry>, n: nat, start: int, end: int, slot: Slot)
    requires n <= |members|
    ensures Find(Full(table, members, n, start, end), slot) ==
            if slot in Full(map[], members, n, start, end) then Some(Full(map[], members, n, start, end)[slot])
            else Find(table, slot)
    ensures slot in Full(map[], members, n, start, end) <==> exists i :: 0 <= i < n && members[i].slot == slot
    ensures slot in Full(map[], members, n, start, end) ==>
              Full(map[], members, n, start, end)[slot] == Window(start, end, false)
  {
    if n > 0 {
      FullLocal(table, members, n - 1, start, end, slot);
    }
  }

  lemma {:induction false} AssignedLocal(table: Table, ordered: seq<Entry>, n: nat, start: int, end: int, slot: Slot)
    requires n <= |ordered| && forall m <- ordered :: m.first.Some?
    ensures Find(Assigned(table, ordered, n, start, end), slot) ==
            if slot in Assigned(map[], ordered, n, start, end) then Some(Assigned(map[], ordered, n, start, end)[slot])
            else Find(table, slot)
    ensures slot in Assigned(map[], ordered, n, start, end) ==>
              exists i :: 0 <= i < n && ordered[i].slot == slot
                          && Assigned(map[], ordered, n, start, end)[slot] == WindowAt(ordered, i, start, end)
    ensures (exists i :: 0 <= i < n && ordered[i].slot == slot) ==> slot in Assigned(map[], ordered, n, start, end)
  {
    if n > 0 {
      AssignedLocal(table, ordered, n - 1, start, end, slot);
    }
  }

  lemma SortedSlots(members: seq<Entry>, slot: Slot)
    requires forall m <- members :: m.first.Some?
    ensures (exists m <- Sort(members) :: m.slot == slot) <==> exists m <- members :: m.slot == slot
  {
  }

  /** A player's rows change the table at that player's slots only, and there put what they would put in an empty
      one. */
  lemma AddedLocal(table: Table, members: seq<Entry>, start: int, end: int, slot: Slot)
    ensures Find(Added(table, members, start, end), slot) ==
            if slot in WindowsOf(members, start, end) then Some(WindowsOf(members, start, end)[slot])
            else Find(table, slot)
    ensures slot in WindowsOf(members, start, end) <==> exists m <- members :: m.slot == slot
  {
    if |members| == 1 {
    } else if !Safe(members) {
      FullLocal(table, members, |members|, start, end, slot);
    } else {
      AssignedLocal(table, Sort(members), |members|, start, end, slot);
      SortedSlots(members, slot);
    }
  }

  // ---- the program ----

  function Of(groups: map<string, seq<Entry>>, player: string): seq<Entry> {
    if player in groups then groups[player] else []
  }

  lemma GroupOneMore(roster: seq<Slot>, slot: Slot, timing: Timing, player: string)
    ensures Group(roster + [slot], timing, player) ==
            Group(roster, timing, player) + if slot.player == player then [EntryOf(slot, timing)] else []
  {
    assert (roster + [slot])[..|roster|] == roster;
  }

  /** `setdefault(player, []).append(...)`. */
  method AddMember(groups: map<string, seq<Entry>>, e: Entry) returns (grown: map<string, seq<Entry>>)
    ensures forall player :: Of(grown, player) == Of(groups, player) + if e.slot.player == player then [e] else []
  {
    grown := groups[e.slot.player := Of(groups, e.slot.player) + [e]];
  }

  ghost predicate GroupedUpTo(groups: map<string, seq<Entry>>, roster: seq<Slot>, timing: Timing, n: nat)
    requires n <= |roster|
  {
    forall player :: Of(groups, player) == Group(roster[..n], timing, player)
  }

  lemma GroupedOneMore(groups: map<string, seq<Entry>>, grown: map<string, seq<Entry>>, roster: seq<Slot>,
                       timing: Timing, n: nat)
    requires n < |roster| && GroupedUpTo(groups, roster, timing, n)
    requires forall player :: Of(grown, player) ==
               Of(groups, player) + if roster[n].player == player then [EntryOf(roster[n], timing)] else []
    ensures GroupedUpTo(grown, roster, timing, n + 1)
  {
    assert roster[..n] + [roster[n]] == roster[..n + 1];
    forall player
      ensures Of(grown, player) == Group(roster[..n + 1], timing, player)
    {
      GroupOneMore(roster[..n], roster[n], timing, player);
    }
  }

  method GroupMembers(roster: seq<Slot>, timing: Timing) returns (groups: map<string, seq<Entry>>)
    ensures forall player :: Of(groups, player) == Group(roster, timing, player)
  {
    groups := map[];
    for k := 0 to |roster|
      invariant GroupedUpTo(groups, roster, timing, k)
    {
      ghost var before := groups;
      groups := AddMember(groups, EntryOf(roster[k], timing));
      GroupedOneMore(before, groups, roster, timing, k);
    }
    assert roster[..|roster|] == roster;
  }

  /** What the table should hold of a slot. */
  function Expected(roster: seq<Slot>, timing: Timing, start: int, end: int, slot: Slot): Option<Window> {
    Find(WindowsOf(Group(roster, timing, slot.player), start, end), slot)
  }

  lemma NoneOfOthers(members: seq<Entry>, player: string, start: int, end: int, slot: Slot)
    requires (forall m <- members :: m.slot.player == player) && slot.player != player
    ensures slot !in WindowsOf(members, start, end)
  {
    AddedLocal(map[], members, start, end, slot);
  }

  lemma OneMorePlayer(table: Table, members: seq<Entry>, player: string, start: int, end: int, slot: Slot)
    requires forall m <- members :: m.slot.player == player
    requires slot.player == player ==> Find(table, slot) == None
    ensures Find(Added(table, members, start, end), slot) ==
            if slot.player == player then Find(WindowsOf(members, start, end), slot) else Find(table, slot)
  {
    AddedLocal(table, members, start, end, slot);
    if slot.player != player {
      NoneOfOthers(members, player, start, end, slot);
    }
  }

  /** The whole table; the players may be taken in any order. */
  method BuildWindows(roster: seq<Slot>, timing: Timing, start: int, end: int) returns (table: Table)
    ensures forall slot :: Find(table, slot) == Expected(roster, timing, start, end, slot)
  {
    var groups := GroupMembers(roster, timing);
    table := map[];
    var left := groups.Keys;
    while left != {}
      invariant left <= groups.Keys
      invariant forall slot: Slot :: Find(table, slot) ==
                  if slot.player in groups && slot.player !in left then Expected(roster, timing, start, end, slot)
                  else None
      decreases left
    {
      var player :| player in left;
      ghost var before := table;
      assert Of(groups, player) == Group(roster, timing, player);
      table := AddWindows(table, groups[player], start, end);
      forall slot: Slot
        ensures Find(table, slot) ==
                if slot.player == player then Expected(roster, timing, start, end, slot) else Find(before, slot)
      {
        OneMorePlayer(before, groups[player], player, start, end, slot);
      }
      left := left - {player};
    }
    forall slot: Slot | slot.player !in groups
      ensures Expected(roster, timing, start, end, slot) == None
    {
      assert Group(roster, timing, slot.player) == Of(groups, slot.player) == [];
    }
  }

  // ---- one team at a time ----

  /** Rows of one player; a slot has one start, so two rows of a slot have the same. */
  predicate Timed(members: seq<Entry>) {
    forall i, j :: 0 <= i < j < |members| && members[i].slot == members[j].slot ==> members[i].first == members[j].first
  }

  lemma GroupTimed(roster: seq<Slot>, timing: Timing, player: string)
    ensures Timed(Group(roster, timing, player))
  {
    var members := Group(roster, timing, player);
    forall i, j | 0 <= i < j < |members| && members[i].slot == members[j].slot
      ensures members[i].first == members[j].first
    {
      assert members[i] in members && members[j] in members;
    }
  }

  predicate Resolved(members: seq<Entry>) {
    |members| == 1 || Safe(members)
  }

  ghost predicate HasAt(members: seq<Entry>, start: int, end: int, slot: Slot, t: int) {
    var table := WindowsOf(members, start, end);
    slot in table && Holds(table[slot], t)
  }

  lemma SafeWindow(members: seq<Entry>, start: int, end: int, slot: Slot)
    requires Safe(members) && |members| != 1 && slot in WindowsOf(members, start, end)
    ensures exists i :: 0 <= i < |members| && Sort(members)[i].slot == slot
                        && WindowsOf(members, start, end)[slot] == WindowAt(Sort(members), i, start, end)
  {
    AssignedLocal(map[], Sort(members), |members|, start, end, slot);
  }

  /** A resolved player is never on two teams at once, at any instant, inside the season or not. */
  lemma NeverTwo(members: seq<Entry>, start: int, end: int, a: Slot, b: Slot, t: int)
    requires Resolved(members) && HasAt(members, start, end, a, t) && HasAt(members, start, end, b, t)
    ensures a == b
  {
    if |members| != 1 {
      var s := Sort(members);
      SortRising(members);
      SafeWindow(members, start, end, a);
      SafeWindow(members, start, end, b);
      var i :| 0 <= i < |s| && s[i].slot == a && WindowsOf(members, start, end)[a] == WindowAt(s, i, start, end);
      var j :| 0 <= j < |s| && s[j].slot == b && WindowsOf(members, start, end)[b] == WindowAt(s, j, start, end);
      if i != j {
        WindowsDisjoint(s, if i < j then i else j, if i < j then j else i, start, end, t);
        assert false;
      }
    }
  }

  lemma IndexOf(members: seq<Entry>, m: Entry) returns (k: nat)
    requires (forall e <- members :: e.first.Some?) && m in Sort(members)
    ensures k < |members| && members[k] == m
  {
    k :| 0 <= k < |members| && members[k] == m;
  }

  lemma SortDistinct(members: seq<Entry>, i: nat, j: nat)
    requires Safe(members) && Timed(members) && i < j < |members|
    ensures Sort(members)[i].slot != Sort(members)[j].slot
  {
    var s := Sort(members);
    SortRising(members);
    assert s[i].first.value < s[j].first.value;
    var k := IndexOf(members, s[i]);
    var l := IndexOf(members, s[j]);
  }

  /** The instant's holder keeps its window: no later row of the same slot replaces it. */
  lemma SlotOfHolder(members: seq<Entry>, start: int, end: int, t: int)
    requires Safe(members) && Timed(members) && |members| > 1 && start <= t < end
    ensures HasAt(members, start, end, Sort(members)[Holder(Sort(members), |members|, t)].slot, t)
  {
    var s := Sort(members);
    var i := Holder(s, |members|, t);
    SortRising(members);
    SeasonPartitioned(s, start, end, t);
    AssignedLocal(map[], s, |members|, start, end, s[i].slot);
    assert s[i].slot in WindowsOf(members, start, end);
    SafeWindow(members, start, end, s[i].slot);
    var j :| 0 <= j < |s| && s[j].slot == s[i].slot
             && WindowsOf(members, start, end)[s[i].slot] == WindowAt(s, j, start, end);
    if j != i {
      SortDistinct(members, if i < j then i else j, if i < j then j else i);
      assert false;
    }
  }

  /** Of a resolved player, every instant of the season belongs to exactly one team. */
  lemma OneTeamAtATime(roster: seq<Slot>, timing: Timing, player: string, start: int, end: int, t: int)
    requires start <= t < end && Group(roster, timing, player) != [] && Resolved(Group(roster, timing, player))
    ensures exists slot :: HasAt(Group(roster, timing, player), start, end, slot, t)
    ensures var members := Group(roster, timing, player);
            forall a, b :: HasAt(members, start, end, a, t) && HasAt(members, start, end, b, t) ==> a == b
  {
    var members := Group(roster, timing, player);
    if |members| == 1 {
      assert HasAt(members, start, end, members[0].slot, t);
    } else {
      GroupTimed(roster, timing, player);
      SlotOfHolder(members, start, end, t);
    }
    forall a, b | HasAt(members, start, end, a, t) && HasAt(members, start, end, b, t)
      ensures a == b
    {
      NeverTwo(members, start, end, a, b, t);
    }
  }

  ghost predicate AtMostOne(members: seq<Entry>, start: int, end: int) {
    forall a, b, t :: HasAt(members, start, end, a, t) && HasAt(members, start, end, b, t) ==> a == b
  }

  predicate OneSlot(members: seq<Entry>) {
    forall i, j :: 0 <= i < j < |members| ==> members[i].slot == members[j].slot
  }

  /** An unresolved player on two teams is on both all season; nobody else is ever on two. */
  lemma AtMostOneExactlyWhen(members: seq<Entry>, start: int, end: int)
    requires start < end
    ensures AtMostOne(members, start, end) <==> Resolved(members) || OneSlot(members)
  {
    if Resolved(members) {
      forall a, b, t | HasAt(members, start, end, a, t) && HasAt(members, start, end, b, t)
        ensures a == b
      {
        NeverTwo(members, start, end, a, b, t);
      }
    } else if OneSlot(members) {
      forall a, b, t | HasAt(members, start, end, a, t) && HasAt(members, start, end, b, t)
        ensures a == b
      {
        AddedLocal(map[], members, start, end, a);
        AddedLocal(map[], members, start, end, b);
      }
    } else {
      var i, j :| 0 <= i < j < |members| && members[i].slot != members[j].slot;
      FullLocal(map[], members, |members|, start, end, members[i].slot);
      FullLocal(map[], members, |members|, start, end, members[j].slot);
      assert HasAt(members, start, end, members[i].slot, start) && HasAt(members, start, end, members[j].slot, start);
    }
  }

  /** Every window of an unresolved player is the whole season and says so. */
  lemma UnresolvedWindows(members: seq<Entry>, start: int, end: int, slot: Slot)
    requires members != []
    ensures slot in WindowsOf(members, start, end) ==>
              (WindowsOf(members, start, end)[slot].resolvable <==> Resolved(members))
    ensures slot in WindowsOf(members, start, end) && !Resolved(members) ==>
              WindowsOf(members, start, end)[slot] == Window(start, end, false)
  {
    if !Resolved(members) {
      FullLocal(map[], members, |members|, start, end, slot);
    } else if |members| != 1 && slot in WindowsOf(members, start, end) {
      SafeWindow(members, start, end, slot);
    }
  }

  // ---- the ledger's membership test ----

  /** The memberships the ledger is given for a player of a season: a stint for each window, and no others. */
  ghost predicate Exported(memberships: Memberships, season: int, members: seq<Entry>, start: int, end: int,
                           player: string, providerId: string, name: TeamId -> string) {
    var table := WindowsOf(members, start, end);
    forall id: string, s :: s in Stints(memberships, player, id, season) ==>
      exists slot :: slot in table && name(slot.team) == id && s == Stint(providerId, table[slot].from, table[slot].to)
  }

  lemma StintHolds(memberships: Memberships, season: int, members: seq<Entry>, start: int, end: int, player: string,
                   providerId: string, name: TeamId -> string, id: string, claimed: string, t: int)
    requires Exported(memberships, season, members, start, end, player, providerId, name)
    requires Member(Stints(memberships, player, id, season), claimed, t)
    ensures exists slot :: HasAt(members, start, end, slot, t) && name(slot.team) == id
  {
    var table := WindowsOf(members, start, end);
    var s :| s in Stints(memberships, player, id, season) && s.providerId == claimed && s.from <= t < s.to;
    var slot :| slot in table && name(slot.team) == id && s == Stint(providerId, table[slot].from, table[slot].to);
    assert HasAt(members, start, end, slot, t);
  }

  /** Two payloads of one season and game time that the ledger accepts cannot list a resolved player on different
      teams. */
  lemma LedgerAcceptsOneTeam(memberships: Memberships, before: Directory, after: Directory, members: seq<Entry>,
                             start: int, end: int, player: string, providerId: string, name: TeamId -> string,
                             x: Payload, y: Payload, at: int, later: int, t: Games.Team, t': Games.Team)
    requires Resolved(members) && Exported(memberships, x.content.season, members, start, end, player, providerId, name)
    requires y.content.season == x.content.season && y.content.gameAt.at == x.content.gameAt.at
    requires Validate(x, before, memberships, at) == Accepted && Validate(y, after, memberships, later) == Accepted
    requires t in x.content.teams && (exists p <- t.players :: p.id == player)
    requires t' in y.content.teams && (exists p <- t'.players :: p.id == player)
    ensures t.id == t'.id
  {
    var c, c' := x.content, y.content;
    var p :| p in t.players && p.id == player;
    var p' :| p' in t'.players && p'.id == player;
    assert SoundTeam(t, c, before, memberships) && SoundTeam(t', c', after, memberships);
    StintHolds(memberships, c.season, members, start, end, player, providerId, name, t.id, p.providerId, c.gameAt.at);
    StintHolds(memberships, c.season, members, start, end, player, providerId, name, t'.id, p'.providerId, c.gameAt.at);
    var a :| HasAt(members, start, end, a, c.gameAt.at) && name(a.team) == t.id;
    var b :| HasAt(members, start, end, b, c.gameAt.at) && name(b.team) == t'.id;
    NeverTwo(members, start, end, a, b, c.gameAt.at);
  }
}

/** The roster windows told by the roster and the timing table alone. */
module WindowFacts {
  import opened Windows
  import opened Wrappers

  /** Row `i` is one of the player's. */
  predicate RowOf(roster: seq<Slot>, player: string, i: nat) {
    i < |roster| && roster[i].player == player
  }

  ghost predicate Only(roster: seq<Slot>, player: string, i: nat) {
    RowOf(roster, player, i) && forall j: nat :: RowOf(roster, player, j) ==> j == i
  }

  ghost predicate Single(roster: seq<Slot>, player: string) {
    exists i: nat :: Only(roster, player, i)
  }

  /** Every row of the player has a known start, and no two rows have the same. */
  ghost predicate TimedApart(roster: seq<Slot>, timing: Timing, player: string) {
    && (forall i: nat :: RowOf(roster, player, i) ==> roster[i] in timing)
    && forall i: nat, j: nat :: i < j && RowOf(roster, player, i) && RowOf(roster, player, j) ==>
         timing[roster[i]] != timing[roster[j]]
  }

  ghost predicate Rowless(roster: seq<Slot>, player: string) {
    forall i: nat :: !RowOf(roster, player, i)
  }

  lemma {:induction false} GroupBySlots(roster: seq<Slot>, timing: Timing, player: string)
    ensures forall m: Entry :: m in Group(roster, timing, player) <==>
              exists i: nat :: RowOf(roster, player, i) && m == EntryOf(roster[i], timing)
  {
    if roster != [] {
      var front, n := roster[..|roster| - 1], |roster| - 1;
      GroupBySlots(front, timing, player);
      forall m: Entry
        ensures m in Group(roster, timing, player) <==>
                exists i: nat :: RowOf(roster, player, i) && m == EntryOf(roster[i], timing)
      {
        if i: nat :| RowOf(roster, player, i) && m == EntryOf(roster[i], timing) {
          assert i < n ==> RowOf(front, player, i) && front[i] == roster[i];
        }
        if i: nat :| RowOf(front, player, i) && m == EntryOf(front[i], timing) {
          assert RowOf(roster, player, i) && front[i] == roster[i];
        }
        if RowOf(roster, player, n) && m == EntryOf(roster[n], timing) {
        }
      }
    }
  }

  lemma FrontRows(roster: seq<Slot>, player: string)
    requires roster != []
    ensures var front := roster[..|roster| - 1];
            forall i: nat :: RowOf(roster, player, i) <==>
              RowOf(front, player, i) || (i == |roster| - 1 && roster[i].player == player)
  {
  }

  lemma LastRow(roster: seq<Slot>, player: string)
    requires roster != [] && roster[|roster| - 1].player == player
    ensures !Rowless(roster, player) && (Single(roster, player) <==> Rowless(roster[..|roster| - 1], player))
  {
    var front, n := roster[..|roster| - 1], |roster| - 1;
    FrontRows(roster, player);
    assert RowOf(roster, player, n);
    if Rowless(front, player) {
      assert Only(roster, player, n);
    }
    if i: nat :| Only(roster, player, i) {
      assert i == n;
    }
  }

  lemma SameRows(a: seq<Slot>, b: seq<Slot>, player: string)
    requires forall i: nat :: RowOf(a, player, i) <==> RowOf(b, player, i)
    ensures Single(a, player) <==> Single(b, player)
    ensures Rowless(a, player) <==> Rowless(b, player)
  {
    if i: nat :| Only(a, player, i) {
      assert Only(b, player, i);
    }
    if i: nat :| Only(b, player, i) {
      assert Only(a, player, i);
    }
  }

  lemma {:induction false} GroupSize(roster: seq<Slot>, timing: Timing, player: string)
    ensures |Group(roster, timing, player)| == 0 <==> Rowless(roster, player)
    ensures |Group(roster, timing, player)| == 1 <==> Single(roster, player)
  {
    if roster != [] {
      var front := roster[..|roster| - 1];
      GroupSize(front, timing, player);
      if roster[|roster| - 1].player == player {
        LastRow(roster, player);
      } else {
        FrontRows(roster, player);
        SameRows(roster, front, player);
      }
    }
  }

  lemma SafeOneMore(members: seq<Entry>, e: Entry)
    ensures Safe(members + [e]) <==> Safe(members) && e.first.Some? && forall m <- members :: m.first != e.first
  {
    var more := members + [e];
    if Safe(more) {
      assert e in more && forall m <- members :: m in more;
      forall i, j | 0 <= i < j < |members|
        ensures members[i].first != members[j].first
      {
        assert more[i] == members[i] && more[j] == members[j];
      }
      forall m | m in members
        ensures m.first != e.first
      {
        var i :| 0 <= i < |members| && members[i] == m;
        assert more[i] == m && more[|members|] == e;
      }
    }
  }

  lemma {:induction false} SafeByTiming(roster: seq<Slot>, timing: Timing, player: string)
    ensures Safe(Group(roster, timing, player)) <==> TimedApart(roster, timing, player)
  {
    if roster != [] {
      var front, n := roster[..|roster| - 1], |roster| - 1;
      SafeByTiming(front, timing, player);
      FrontRows(roster, player);
      assert forall i: nat :: i < n ==> front[i] == roster[i];
      if roster[n].player == player {
        assert RowOf(roster, player, n);
        SafeOneMore(Group(front, timing, player), EntryOf(roster[n], timing));
        GroupBySlots(front, timing, player);
        ApartOneMore(roster, timing, player);
      } else {
        assert Group(front, timing, player) + [] == Group(front, timing, player);
        SameApart(roster, timing, player);
      }
    }
  }

  lemma SameApart(roster: seq<Slot>, timing: Timing, player: string)
    requires roster != [] && roster[|roster| - 1].player != player
    ensures TimedApart(roster, timing, player) <==> TimedApart(roster[..|roster| - 1], timing, player)
  {
    var front := roster[..|roster| - 1];
    FrontRows(roster, player);
    assert forall i: nat :: RowOf(front, player, i) ==> RowOf(roster, player, i) && front[i] == roster[i];
    assert forall i: nat :: RowOf(roster, player, i) ==> RowOf(front, player, i);
  }

  lemma ApartOneMore(roster: seq<Slot>, timing: Timing, player: string)
    requires roster != [] && roster[|roster| - 1].player == player
    ensures var front, n := roster[..|roster| - 1], |roster| - 1;
            TimedApart(roster, timing, player) <==>
            && TimedApart(front, timing, player) && roster[n] in timing
            && forall i: nat :: RowOf(front, player, i) ==>
                 EntryOf(front[i], timing).first != EntryOf(roster[n], timing).first
  {
    var front, n := roster[..|roster| - 1], |roster| - 1;
    FrontRows(roster, player);
    assert RowOf(roster, player, n) && forall i: nat :: i < n ==> front[i] == roster[i];
    if TimedApart(roster, timing, player) {
      forall i: nat | RowOf(front, player, i)
        ensures EntryOf(front[i], timing).first != EntryOf(roster[n], timing).first
      {
        assert RowOf(roster, player, i);
      }
    }
  }

  /** A player is resolved exactly when listed once, or with known and different starts throughout. */
  lemma ResolvedByTiming(roster: seq<Slot>, timing: Timing, player: string)
    ensures Resolved(Group(roster, timing, player)) <==> Single(roster, player) || TimedApart(roster, timing, player)
  {
    GroupSize(roster, timing, player);
    SafeByTiming(roster, timing, player);
  }

  /** One of the player's rows starts then. */
  ghost predicate StartsThen(roster: seq<Slot>, timing: Timing, player: string, x: int) {
    exists i: nat :: RowOf(roster, player, i) && roster[i] in timing && timing[roster[i]] == x
  }

  /** The window of a row among starts that are all known and different: from its own start, or the season's if it is
      the first, to the next start, or the season's end if it is the last. */
  ghost predicate BetweenStarts(w: Window, roster: seq<Slot>, timing: Timing, player: string, own: int, start: int,
                                end: int)
  {
    && w.resolvable
    && w.from == (if exists x :: StartsThen(roster, timing, player, x) && x < own then own else start)
    && (if exists x :: StartsThen(roster, timing, player, x) && own < x
        then
          && StartsThen(roster, timing, player, w.to) && own < w.to
          && forall x :: StartsThen(roster, timing, player, x) && own < x ==> w.to <= x
        else w.to == end)
  }

  /** The window a slot of the roster should have. */
  ghost predicate RightWindow(w: Window, roster: seq<Slot>, timing: Timing, start: int, end: int, slot: Slot) {
    if Single(roster, slot.player) then w == Window(start, end, true)
    else if !TimedApart(roster, timing, slot.player) then w == Window(start, end, false)
    else slot in timing && BetweenStarts(w, roster, timing, slot.player, timing[slot], start, end)
  }

  predicate MemberStarts(members: seq<Entry>, x: int) {
    exists m <- members :: m.first == Some(x)
  }

  lemma StartsOfMembers(roster: seq<Slot>, timing: Timing, player: string, x: int)
    ensures StartsThen(roster, timing, player, x) <==> MemberStarts(Group(roster, timing, player), x)
  {
    GroupBySlots(roster, timing, player);
    var members := Group(roster, timing, player);
    if i: nat :| RowOf(roster, player, i) && roster[i] in timing && timing[roster[i]] == x {
      assert EntryOf(roster[i], timing) in members;
    }
    if m :| m in members && m.first == Some(x) {
      var i: nat :| RowOf(roster, player, i) && m == EntryOf(roster[i], timing);
    }
  }

  /** The same window, by the starts of the sorted members. */
  lemma WindowOfSorted(members: seq<Entry>, k: nat, start: int, end: int)
    requires Safe(members) && k < |members|
    ensures var s := Sort(members); var w := WindowAt(s, k, start, end); var own := s[k].first.value;
            && (forall x :: MemberStarts(members, x) && x < own ==> k > 0)
            && (k > 0 ==> MemberStarts(members, s[k - 1].first.value) && s[k - 1].first.value < own)
            && (k + 1 < |s| ==> MemberStarts(members, w.to) && own < w.to)
            && (forall x :: MemberStarts(members, x) && own < x ==> k + 1 < |s| && w.to <= x)
  {
    var s := Sort(members);
    SortRising(members);
    if k > 0 {
      assert s[k - 1] in members;
    }
    if k + 1 < |s| {
      assert s[k + 1] in members;
    }
    forall x | MemberStarts(members, x)
      ensures x < s[k].first.value ==> k > 0
      ensures s[k].first.value < x ==> k + 1 < |s| && WindowAt(s, k, start, end).to <= x
    {
      var m :| m in members && m.first == Some(x);
      assert m in s;
      var j :| 0 <= j < |s| && s[j] == m;
    }
  }

  lemma SortedWindow(roster: seq<Slot>, timing: Timing, player: string, k: nat, start: int, end: int)
    requires Safe(Group(roster, timing, player)) && k < |Group(roster, timing, player)|
    ensures var s := Sort(Group(roster, timing, player));
            BetweenStarts(WindowAt(s, k, start, end), roster, timing, player, s[k].first.value, start, end)
  {
    var members := Group(roster, timing, player);
    WindowOfSorted(members, k, start, end);
    forall x
      ensures StartsThen(roster, timing, player, x) <==> MemberStarts(members, x)
    {
      StartsOfMembers(roster, timing, player, x);
    }
  }

  lemma SlotsOfGroup(roster: seq<Slot>, timing: Timing, slot: Slot)
    ensures (exists m <- Group(roster, timing, slot.player) :: m.slot == slot) <==> slot in roster
  {
    GroupBySlots(roster, timing, slot.player);
    if slot in roster {
      var i :| 0 <= i < |roster| && roster[i] == slot;
      assert RowOf(roster, slot.player, i) && EntryOf(slot, timing) in Group(roster, timing, slot.player);
    }
  }

  lemma WindowOfMember(roster: seq<Slot>, timing: Timing, start: int, end: int, slot: Slot)
    requires slot in WindowsOf(Group(roster, timing, slot.player), start, end)
    ensures RightWindow(WindowsOf(Group(roster, timing, slot.player), start, end)[slot], roster, timing, start, end,
                        slot)
  {
    var members := Group(roster, timing, slot.player);
    GroupSize(roster, timing, slot.player);
    SafeByTiming(roster, timing, slot.player);
    if |members| != 1 && Safe(members) {
      SafeWindow(members, start, end, slot);
      var k :| 0 <= k < |members| && Sort(members)[k].slot == slot
               && WindowsOf(members, start, end)[slot] == WindowAt(Sort(members), k, start, end);
      assert Sort(members)[k] in members;
      SortedWindow(roster, timing, slot.player, k, start, end);
    } else if |members| != 1 {
      FullLocal(map[], members, |members|, start, end, slot);
    }
  }

  /** The table holds a window for exactly the slots of the roster, and the right one. */
  lemma WindowsByTiming(roster: seq<Slot>, timing: Timing, start: int, end: int, slot: Slot)
    ensures var w := Expected(roster, timing, start, end, slot);
            && (w.Some? <==> slot in roster)
            && (w.Some? ==> RightWindow(w.value, roster, timing, start, end, slot))
  {
    AddedLocal(map[], Group(roster, timing, slot.player), start, end, slot);
    SlotsOfGroup(roster, timing, slot);
    if slot in WindowsOf(Group(roster, timing, slot.player), start, end) {
      WindowOfMember(roster, timing, start, end, slot);
    }
  }
}

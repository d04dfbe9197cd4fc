/** Whole runs of the ledger: every derived table stays the full recomputation from the version history. */
module LedgerRuns {
  import opened Cards
  import opened Games
  import opened LedgerStore
  import opened Wrappers
  import Runs

  /** The tables after the first `n` calls of a run on a new ledger. */
  ghost function After(calls: seq<Call>, n: nat): Store
    requires n <= |calls|
  {
    Runs.After(LedgerStore.Apply, EMPTY, calls, n)
  }

  // ---- the three tables as functions of the history ----

  /** The last committed version of each game. */
  ghost function Heads(versions: seq<Version>): Board {
    if versions == [] then map[]
    else
      var v := versions[|versions| - 1];
      Heads(versions[..|versions| - 1])[v.game.gameId := v.game]
  }

  ghost function Notices(versions: seq<Version>): seq<Notice> {
    if versions == [] then []
    else Notices(versions[..|versions| - 1]) + NoticesOf(versions[|versions| - 1].game)
  }

  predicate Ordered(v: Version, w: Version) {
    && v.game != w.game
    && (v.game.gameId == w.game.gameId ==> v.observed < w.observed && SameMatch(v.game, w.game))
  }

  predicate SoundVersion(v: Version) {
    v.game.gameAt.at < v.observed <= v.committed && v.evidence.content == v.game && v.evidence.observed == v.observed
  }

  predicate History(versions: seq<Version>) {
    && (forall v <- versions :: SoundVersion(v))
    && (forall i, j :: 0 <= i < j < |versions| ==> Ordered(versions[i], versions[j]))
  }

  ghost predicate Coherent(t: Tables) {
    && History(t.versions)
    && t.current == Heads(t.versions)
    && t.cards == AllCards(t.current)
    && t.outbox == Notices(t.versions)
    && t.cards.Values <= t.cardVersions.Keys
  }

  predicate Archived(s: Store) {
    forall v <- s.tables.versions :: v.evidence in s.raw
  }

  function Judged(s: Store, c: Call): Judgement
    requires c.ProcessCall?
  {
    Judge(s.tables, c.p, c.directory, c.memberships, c.at)
  }

  predicate Commits(s: Store, c: Call) {
    c.ProcessCall? && Judged(s, c) == Fresh && !Injects(c.failAt)
  }

  /** A call that raises, at whatever point, or re-polls known content, changes only raw evidence and jobs; `discover`
      changes only jobs and `snapshot` only snapshots. */
  lemma OnlyCommitsCount(s: Store, c: Call)
    ensures Apply(s, c).tables == if Commits(s, c) then Commit(s.tables, c.p, c.at) else s.tables
    ensures c.ProcessCall? ==>
              var (s', out) := Process(s, c.p, c.directory, c.memberships, c.at, c.failAt);
              && s'.raw == s.raw + {c.p} && s'.snapshots == s.snapshots
              && (out.Raised? <==> !Commits(s, c) && Judged(s, c) != Repoll)
    ensures !c.ProcessCall? ==> Apply(s, c).raw == s.raw
  {
  }

  /** And of the jobs only the called game's. */
  lemma OtherJobsUntouched(s: Store, c: Call, id: string)
    requires c.ProcessCall? && id in s.jobs && id != c.p.content.gameId
    ensures id in Apply(s, c).jobs && Apply(s, c).jobs[id] == s.jobs[id]
  {
  }

  lemma {:induction false} HeadsKeyed(versions: seq<Version>)
    ensures Keyed(Heads(versions))
  {
    if versions != [] {
      HeadsKeyed(versions[..|versions| - 1]);
    }
  }

  /** `head` is the version of game `id` observed last. */
  predicate IsLast(versions: seq<Version>, id: string, head: Version) {
    && head in versions && head.game.gameId == id
    && forall v <- versions :: v.game.gameId == id ==>
         v == head || (v.observed < head.observed && SameMatch(v.game, head.game))
  }

  /** The pointer of a game is a stored version, and no version of the game was observed later. */
  lemma {:induction false} HeadIsGreatest(versions: seq<Version>, id: string) returns (head: Option<Version>)
    requires History(versions)
    ensures head.Some? <==> id in Heads(versions)
    ensures head.Some? ==> IsLast(versions, id, head.value) && head.value.game == Heads(versions)[id]
    ensures head.None? ==> forall v <- versions :: v.game.gameId != id
  {
    if versions == [] {
      head := None;
    } else {
      var earlier, last := versions[..|versions| - 1], versions[|versions| - 1];
      head := HeadIsGreatest(earlier, id);
      NewestOfAll(versions);
      if last.game.gameId == id {
        head := Some(last);
      }
    }
  }

  lemma NewestOfAll(versions: seq<Version>)
    requires History(versions) && versions != []
    ensures History(versions[..|versions| - 1])
    ensures forall v <- versions :: v in versions[..|versions| - 1] || v == versions[|versions| - 1]
    ensures forall v <- versions[..|versions| - 1] :: v in versions && Ordered(v, versions[|versions| - 1])
  {
    assert versions == versions[..|versions| - 1] + [versions[|versions| - 1]];
  }

  lemma {:induction false} ObservedOfVersion(versions: seq<Version>, v: Version)
    requires History(versions) && v in versions
    ensures ObservedOf(versions, v.game) == Some(v.observed)
  {
    if v != versions[0] {
      assert versions == [versions[0]] + versions[1..];
      ObservedOfVersion(versions[1..], v);
    }
  }

  function VersionFrom(p: Payload, at: int): Version
    requires Settled(p.content)
  {
    Version(p.content, p.observed, p, at)
  }

  /** A fresh payload extends the history: it is new content, observed after every version of its game. */
  lemma FreshExtendsHistory(t: Tables, p: Payload, at: int)
    requires History(t.versions) && t.current == Heads(t.versions)
    requires Settled(p.content) && NewFor(t, p, at)
    ensures History(t.versions + [VersionFrom(p, at)])
    ensures Correctable(t.current, p.content)
  {
    var head := HeadIsGreatest(t.versions, p.content.gameId);
    HeadsKeyed(t.versions);
    if head.Some? {
      ObservedOfVersion(t.versions, head.value);
    }
    forall v | v in t.versions
      ensures Ordered(v, VersionFrom(p, at))
    {
      AfterHead(t.versions, head, v, VersionFrom(p, at));
    }
    HistoryGrows(t.versions, VersionFrom(p, at));
  }

  lemma HistoryGrows(versions: seq<Version>, w: Version)
    requires History(versions) && SoundVersion(w) && forall v <- versions :: Ordered(v, w)
    ensures History(versions + [w])
  {
    assert forall v <- versions + [w] :: v in versions || v == w;
    assert forall j :: 0 <= j < |versions| ==> versions[j] in versions;
  }

  /** What is observed after the head of its game is ordered after every version. */
  lemma AfterHead(versions: seq<Version>, head: Option<Version>, v: Version, w: Version)
    requires v in versions && v.game != w.game
    requires if head.Some? then IsLast(versions, w.game.gameId, head.value) && head.value.observed < w.observed
                                && SameMatch(head.value.game, w.game)
             else forall u <- versions :: u.game.gameId != w.game.gameId
    ensures Ordered(v, w)
  {
  }

  lemma CommitCoherent(t: Tables, p: Payload, at: int)
    requires Coherent(t) && Settled(p.content) && NewFor(t, p, at)
    ensures Coherent(Commit(t, p, at))
  {
    var board := t.current[p.content.gameId := p.content];
    FreshExtendsHistory(t, p, at);
    TwoCardsSuffice(t.current, p.content);
    CommitCardsCoherent(t, VersionFrom(p, at), board, CardAt(board));
  }

  lemma CommitCardsCoherent(t: Tables, v: Version, board: Board, card: CardKey -> Card)
    requires Coherent(t) && History(t.versions + [v])
    requires board == t.current[v.game.gameId := v.game]
    requires AllCards(board) ==
             t.cards[FirstKey(v.game) := card(FirstKey(v.game))][SecondKey(v.game) := card(SecondKey(v.game))]
    ensures Coherent(CommitCards(t, v, board, card))
  {
    HistoryStep(t.versions, v);
    PublishedValues(t.cards, t.cardVersions, FirstKey(v.game), card(FirstKey(v.game)), v.committed);
    PublishedValues(t.cards[FirstKey(v.game) := card(FirstKey(v.game))],
                    Publish(t.cardVersions, card(FirstKey(v.game)), v.committed),
                    SecondKey(v.game), card(SecondKey(v.game)), v.committed);
  }

  lemma HistoryStep(versions: seq<Version>, v: Version)
    ensures Heads(versions + [v]) == Heads(versions)[v.game.gameId := v.game]
    ensures Notices(versions + [v]) == Notices(versions) + NoticesOf(v.game)
  {
    assert (versions + [v])[..|versions|] == versions;
  }

  lemma PublishedValues(cards: map<CardKey, Card>, published: map<Card, int>, k: CardKey, c: Card, at: int)
    requires cards.Values <= published.Keys
    ensures cards[k := c].Values <= Publish(published, c, at).Keys
  {
    forall d | d in cards[k := c].Values
      ensures d in Publish(published, c, at)
    {
      var x :| x in cards[k := c] && cards[k := c][x] == d;
      assert x != k ==> d in cards.Values;
    }
  }

  lemma EmptyCoherent(s: Store)
    requires s == EMPTY
    ensures Coherent(s.tables)
  {
    assert AllCards(map[]) == map[];
  }

  lemma StepCoherent(s: Store, c: Call, s': Store)
    requires Coherent(s.tables) && s' == Apply(s, c)
    ensures Coherent(s'.tables)
  {
    OnlyCommitsCount(s, c);
    if Commits(s, c) {
      CommitCoherent(s.tables, c.p, c.at);
    }
  }

  /** In every reachable state each current card is the full recomputation, the pointers are the heads of the version
      history and the outbox is exactly its notices, although a commit rebuilds only two cards. */
  lemma ReachableCoherent(calls: seq<Call>, n: nat)
    requires n <= |calls|
    ensures Coherent(After(calls, n).tables)
  {
    EmptyCoherent(EMPTY);
    forall s: Store, c | Coherent(s.tables)
      ensures Coherent(LedgerStore.Apply(s, c).tables)
    {
      StepCoherent(s, c, LedgerStore.Apply(s, c));
    }
    Runs.Invariant(LedgerStore.Apply, EMPTY, calls, n, (s: Store) => Coherent(s.tables));
  }
}

/**
  The entry service (server/src/v1/Entry/Service/entry.service.ts): the id
  guards, entry creation with its whitespace rule, voting, and the title entry
  counters kept in step with creation and deletion.

  The entries collection is a sequence in insertion order, the titles
  collection a map from title id to its `entry_count`, the users collection
  the set of known usernames. Every repository call the service makes is
  appended to `calls`; reading, updating and voting on an entry are known
  only as such calls, with the repository's answer a parameter where the
  service passes it on, since their repository code is not part of this model. `isMongoId`
  and the ownership rule of the repository's `deleteEntry` are predicates fixed
  at construction.
*/
module Entries {
  import opened Common
  import opened Js
  import opened Http

  datatype Entry = Entry(id: string, titleId: string, writtenBy: string, text: string)

  datatype CreateEntryDto = CreateEntryDto(titleId: string, text: string)

  /** One value of the `Map` built by `deleteEntriesBelongsToUsername`: `{id, entryCount}`. */
  datatype TitleGroup = TitleGroup(id: string, entryCount: nat)

  /** A call on one of the three repositories. */
  datatype RepoCall =
    | GetEntry(entryId: string)
    | UpdateEntry(username: string, entryId: string, text: string)
    | UpdateEntryCount(titleId: string, delta: int)
    | CreateEntry(writtenBy: string, dto: CreateEntryDto)
    | FindEntry(entryId: string)
    | VoteEntry(entryId: string, username: string, isUpVoted: bool)
    | UndoVoteOfEntry(entryId: string, username: string, isUpVoted: bool)
    | GetUserByUsername(username: string)
    | DeleteEntry(username: string, role: int, entryId: string)
    | DeleteEntriesOf(username: string)

  const NotMongoId := "EntryId must be a MongoId."
  const WhitespaceText := "Entry text can not be whitespace"

  /** The title ids the entries refer to (`TitleIdsMember` states it by position). */
  function TitleIds(es: seq<Entry>): set<string> {
    if es == [] then {} else TitleIds(es[..|es| - 1]) + {es[|es| - 1].titleId}
  }

  /** A title id is among `TitleIds(es)` exactly when some entry refers to it. */
  lemma {:induction false} TitleIdsMember(es: seq<Entry>, t: string)
    ensures t in TitleIds(es) <==> exists j :: 0 <= j < |es| && es[j].titleId == t
    decreases |es|
  {
    if es != [] {
      var n := |es| - 1;
      TitleIdsMember(es[..n], t);
      if t in TitleIds(es[..n]) {
        var j :| 0 <= j < n && es[..n][j].titleId == t;
        assert es[j].titleId == t;
      }
      if exists j :: 0 <= j < |es| && es[j].titleId == t {
        var j :| 0 <= j < |es| && es[j].titleId == t;
        if j < n { assert es[..n][j].titleId == t; }
      }
    }
  }

  /** How many of the entries belong to title `t`. */
  function CountTitle(es: seq<Entry>, t: string): nat {
    if es == [] then 0
    else CountTitle(es[..|es| - 1], t) + (if es[|es| - 1].titleId == t then 1 else 0)
  }

  /** The position of the first entry of title `t`, or `|es|` when there is none. */
  function IndexOfTitle(es: seq<Entry>, t: string): (k: nat)
    ensures k <= |es|
    ensures k < |es| ==> es[k].titleId == t
    ensures forall j :: 0 <= j < k ==> es[j].titleId != t
  {
    if es == [] then 0
    else if es[0].titleId == t then 0
    else 1 + IndexOfTitle(es[1..], t)
  }

  /** The sum of the groups' counts. */
  function SumCounts(gs: seq<TitleGroup>): nat {
    if gs == [] then 0 else SumCounts(gs[..|gs| - 1]) + gs[|gs| - 1].entryCount
  }

  /** The sum of the counts of the groups with id `t`. */
  function CountOfGroups(gs: seq<TitleGroup>, t: string): nat {
    if gs == [] then 0
    else CountOfGroups(gs[..|gs| - 1], t) + (if gs[|gs| - 1].id == t then gs[|gs| - 1].entryCount else 0)
  }

  /** The count updates issued for the groups, in order: each title by minus its group's count. */
  function Updates(gs: seq<TitleGroup>): (calls: seq<RepoCall>)
    ensures |calls| == |gs|
    ensures forall m :: 0 <= m < |gs| ==> calls[m] == UpdateEntryCount(gs[m].id, 0 - gs[m].entryCount as int)
  {
    if gs == [] then []
    else Updates(gs[..|gs| - 1]) + [UpdateEntryCount(gs[|gs| - 1].id, 0 - gs[|gs| - 1].entryCount as int)]
  }

  /** The title counts after applying the groups' updates in order; a title that is not there stays absent. */
  function Decremented(titles: map<string, int>, gs: seq<TitleGroup>): map<string, int> {
    if gs == [] then titles
    else
      var before := Decremented(titles, gs[..|gs| - 1]);
      var g := gs[|gs| - 1];
      if g.id in before then before[g.id := before[g.id] - g.entryCount] else before
  }

  /** Applying the groups lowers each title's count by the counts of its groups, and adds no title. */
  lemma {:induction false} DecrementedCounts(titles: map<string, int>, gs: seq<TitleGroup>)
    ensures Decremented(titles, gs).Keys == titles.Keys
    ensures forall t :: t in titles ==> Decremented(titles, gs)[t] == titles[t] - CountOfGroups(gs, t)
    decreases |gs|
  {
    if gs != [] {
      DecrementedCounts(titles, gs[..|gs| - 1]);
    }
  }

  lemma {:induction false} SumCountsUpdate(gs: seq<TitleGroup>, j: nat, g: TitleGroup)
    requires j < |gs|
    ensures SumCounts(gs[j := g]) == SumCounts(gs) - gs[j].entryCount + g.entryCount
    decreases |gs|
  {
    var n := |gs| - 1;
    if j < n {
      assert gs[j := g][..n] == gs[..n][j := g];
      SumCountsUpdate(gs[..n], j, g);
    } else {
      assert gs[j := g][..n] == gs[..n];
    }
  }

  lemma {:induction false} CountTitleAbsent(es: seq<Entry>, t: string)
    requires forall k :: 0 <= k < |es| ==> es[k].titleId != t
    ensures CountTitle(es, t) == 0
    decreases |es|
  {
    if es != [] {
      var n := |es| - 1;
      assert forall k :: 0 <= k < n ==> es[..n][k] == es[k];
      CountTitleAbsent(es[..n], t);
    }
  }

  /** With distinct ids, the counts of the groups with id `t` add up to that one group's count, or to 0. */
  lemma {:induction false} CountOfDistinctGroups(gs: seq<TitleGroup>, t: string)
    requires forall i, j :: 0 <= i < j < |gs| ==> gs[i].id != gs[j].id
    ensures forall j :: 0 <= j < |gs| && gs[j].id == t ==> CountOfGroups(gs, t) == gs[j].entryCount
    ensures (forall j :: 0 <= j < |gs| ==> gs[j].id != t) ==> CountOfGroups(gs, t) == 0
    decreases |gs|
  {
    if gs != [] {
      var n := |gs| - 1;
      CountOfDistinctGroups(gs[..n], t);
      forall j | 0 <= j < n && gs[j].id == t ensures CountOfGroups(gs, t) == gs[j].entryCount {
        assert gs[..n][j] == gs[j];
      }
      if gs[n].id == t {
        assert forall j :: 0 <= j < n ==> gs[..n][j].id != t;
      }
    }
  }

  lemma TitleIdsSnoc(es: seq<Entry>, i: nat)
    requires i < |es|
    ensures TitleIds(es[..i + 1]) == TitleIds(es[..i]) + {es[i].titleId}
  {
    assert es[..i + 1][..i] == es[..i];
  }

  lemma CountTitleSnoc(es: seq<Entry>, i: nat, t: string)
    requires i < |es|
    ensures CountTitle(es[..i + 1], t) == CountTitle(es[..i], t) + (if es[i].titleId == t then 1 else 0)
  {
    assert es[..i + 1][..i] == es[..i];
  }

  /** An entry whose title does not occur earlier is its title's first entry. */
  lemma FirstIndexAt(es: seq<Entry>, i: nat)
    requires i < |es| && forall k :: 0 <= k < i ==> es[k].titleId != es[i].titleId
    ensures IndexOfTitle(es, es[i].titleId) == i
  {
  }

  lemma SumCountsSnoc(gs: seq<TitleGroup>, g: TitleGroup)
    ensures SumCounts(gs + [g]) == SumCounts(gs) + g.entryCount
  {
    assert (gs + [g])[..|gs|] == gs;
  }

  /** `slot` and `groups` agree: each key's slot holds its group, and each group sits in its key's slot. */
  ghost predicate SlotsMatch(groups: seq<TitleGroup>, slot: map<string, nat>) {
    && (forall t :: t in slot ==> slot[t] < |groups| && groups[slot[t]].id == t)
    && (forall j :: 0 <= j < |groups| ==> groups[j].id in slot && slot[groups[j].id] == j)
  }

  /** Every title among the first `i` entries has a slot. */
  ghost predicate AllSeen(es: seq<Entry>, i: nat, slot: map<string, nat>)
    requires i <= |es|
  {
    forall k :: 0 <= k < i ==> es[k].titleId in slot
  }

  /** Each group counts its title among the first `i` entries. */
  ghost predicate Counted(es: seq<Entry>, i: nat, groups: seq<TitleGroup>)
    requires i <= |es|
  {
    forall j :: 0 <= j < |groups| ==> groups[j].entryCount == CountTitle(es[..i], groups[j].id)
  }

  /** The groups are titles first met among the first `i` entries, in the order they were met. */
  ghost predicate InFirstSeenOrder(es: seq<Entry>, i: nat, groups: seq<TitleGroup>) {
    && (forall j :: 0 <= j < |groups| ==> IndexOfTitle(es, groups[j].id) < i)
    && (forall j, l :: 0 <= j < l < |groups| ==> IndexOfTitle(es, groups[j].id) < IndexOfTitle(es, groups[l].id))
  }

  /**
    The state of the grouping after the first `i` entries: `groups` are the
    values of the `Map` in insertion order and `slot` gives the position of
    each key's value.
  */
  ghost predicate Grouped(es: seq<Entry>, i: nat, groups: seq<TitleGroup>, slot: map<string, nat>)
    requires i <= |es|
  {
    && SlotsMatch(groups, slot)
    && AllSeen(es, i, slot)
    && Counted(es, i, groups)
    && InFirstSeenOrder(es, i, groups)
    && SumCounts(groups) == i
  }

  lemma CountsAfterNewTitle(es: seq<Entry>, i: nat, groups: seq<TitleGroup>, slot: map<string, nat>)
    requires i < |es| && AllSeen(es, i, slot) && SlotsMatch(groups, slot) && es[i].titleId !in slot
    requires Counted(es, i, groups)
    ensures Counted(es, i + 1, groups + [TitleGroup(es[i].titleId, 1)])
  {
    var t := es[i].titleId;
    var groups' := groups + [TitleGroup(t, 1)];
    var seen := es[..i];
    assert forall k :: 0 <= k < |seen| ==> seen[k].titleId != t;
    CountTitleAbsent(seen, t);
    forall m | 0 <= m < |groups'| ensures groups'[m].entryCount == CountTitle(es[..i + 1], groups'[m].id) {
      CountTitleSnoc(es, i, groups'[m].id);
      if m < |groups| {
        assert groups'[m] == groups[m];
        assert groups[m].id in slot;
      }
    }
  }

  lemma CountsAfterKnownTitle(es: seq<Entry>, i: nat, groups: seq<TitleGroup>, slot: map<string, nat>)
    requires i < |es| && SlotsMatch(groups, slot) && es[i].titleId in slot
    requires Counted(es, i, groups)
    ensures var j := slot[es[i].titleId];
            Counted(es, i + 1, groups[j := TitleGroup(es[i].titleId, groups[j].entryCount + 1)])
  {
    var j := slot[es[i].titleId];
    var groups' := groups[j := TitleGroup(es[i].titleId, groups[j].entryCount + 1)];
    forall m | 0 <= m < |groups'| ensures groups'[m].entryCount == CountTitle(es[..i + 1], groups'[m].id) {
      CountTitleSnoc(es, i, groups'[m].id);
      if m != j {
        assert slot[groups[m].id] == m;
      }
    }
  }

  lemma OrderAfterNewTitle(es: seq<Entry>, i: nat, groups: seq<TitleGroup>, slot: map<string, nat>)
    requires i < |es| && AllSeen(es, i, slot) && es[i].titleId !in slot
    requires InFirstSeenOrder(es, i, groups)
    ensures InFirstSeenOrder(es, i + 1, groups + [TitleGroup(es[i].titleId, 1)])
  {
    assert forall k :: 0 <= k < i ==> es[k].titleId != es[i].titleId;
    FirstIndexAt(es, i);
    var groups' := groups + [TitleGroup(es[i].titleId, 1)];
    assert forall j :: 0 <= j < |groups| ==> groups'[j] == groups[j];
  }

  lemma SlotsAfterNewTitle(groups: seq<TitleGroup>, slot: map<string, nat>, t: string)
    requires SlotsMatch(groups, slot) && t !in slot
    ensures SlotsMatch(groups + [TitleGroup(t, 1)], slot[t := |groups|])
  {
    var groups' := groups + [TitleGroup(t, 1)];
    assert forall j :: 0 <= j < |groups| ==> groups'[j] == groups[j];
  }

  lemma SeenAfterNewTitle(es: seq<Entry>, i: nat, slot: map<string, nat>, n: nat)
    requires i < |es| && AllSeen(es, i, slot)
    ensures AllSeen(es, i + 1, slot[es[i].titleId := n])
  {
  }

  /** The first entry of a title not seen before opens a new group with count 1. */
  lemma GroupNewTitle(es: seq<Entry>, i: nat, groups: seq<TitleGroup>, slot: map<string, nat>,
                      groups': seq<TitleGroup>, slot': map<string, nat>)
    requires i < |es| && Grouped(es, i, groups, slot) && es[i].titleId !in slot
    requires groups' == groups + [TitleGroup(es[i].titleId, 1)] && slot' == slot[es[i].titleId := |groups|]
    ensures Grouped(es, i + 1, groups', slot')
  {
    CountsAfterNewTitle(es, i, groups, slot);
    OrderAfterNewTitle(es, i, groups, slot);
    SlotsAfterNewTitle(groups, slot, es[i].titleId);
    SeenAfterNewTitle(es, i, slot, |groups|);
    SumCountsSnoc(groups, TitleGroup(es[i].titleId, 1));
  }

  /** A further entry of a title already seen adds one to that title's group. */
  lemma GroupKnownTitle(es: seq<Entry>, i: nat, groups: seq<TitleGroup>, slot: map<string, nat>,
                        groups': seq<TitleGroup>)
    requires i < |es| && Grouped(es, i, groups, slot) && es[i].titleId in slot
    requires var j := slot[es[i].titleId];
             groups' == groups[j := TitleGroup(es[i].titleId, groups[j].entryCount + 1)]
    ensures Grouped(es, i + 1, groups', slot)
  {
    var j := slot[es[i].titleId];
    var g := TitleGroup(es[i].titleId, groups[j].entryCount + 1);
    CountsAfterKnownTitle(es, i, groups, slot);
    SameIdKeepsShape(es, i, groups, j, g, slot);
    SumCountsUpdate(groups, j, g);
  }

  /** Replacing a group by one with the same id keeps the slots, the seen titles and the order. */
  lemma SameIdKeepsShape(es: seq<Entry>, i: nat, groups: seq<TitleGroup>, j: nat, g: TitleGroup, slot: map<string, nat>)
    requires i < |es| && j < |groups| && g.id == groups[j].id
    requires SlotsMatch(groups, slot) && AllSeen(es, i, slot) && es[i].titleId in slot
    requires InFirstSeenOrder(es, i, groups)
    ensures SlotsMatch(groups[j := g], slot) && AllSeen(es, i + 1, slot) && InFirstSeenOrder(es, i + 1, groups[j := g])
  {
    var groups' := groups[j := g];
    assert forall m :: 0 <= m < |groups| ==> groups'[m].id == groups[m].id;
  }

  /** The title ids of the groups (`GroupIdsMember` states it by position). */
  function GroupIds(gs: seq<TitleGroup>): set<string> {
    set j | 0 <= j < |gs| :: gs[j].id
  }

  /** A title id is among the groups' ids exactly when some group has it. */
  lemma GroupIdsMember(gs: seq<TitleGroup>, x: string)
    ensures x in GroupIds(gs) <==> exists j :: 0 <= j < |gs| && gs[j].id == x
  {
  }

  /**
    `groups` is the grouping of `es` by title that `deleteEntriesBelongsToUsername`
    builds: one group per title id of the entries and no other, in the order
    of each title's first entry, each counting the entries of its title.
    `TitleGroupingUnique` shows that at most one sequence is such a grouping.
  */
  ghost predicate IsTitleGrouping(es: seq<Entry>, groups: seq<TitleGroup>) {
    && (forall i, j :: 0 <= i < j < |groups| ==> groups[i].id != groups[j].id)
    && GroupIds(groups) == TitleIds(es)
    && (forall i, j :: 0 <= i < j < |groups| ==> IndexOfTitle(es, groups[i].id) < IndexOfTitle(es, groups[j].id))
    && (forall i :: 0 <= i < |groups| ==> groups[i].entryCount == CountTitle(es, groups[i].id))
  }

  /** A title of the grouping sits at some position of any other grouping of the same entries. */
  lemma GroupPositionOf(es: seq<Entry>, groups: seq<TitleGroup>, other: seq<TitleGroup>, m: nat)
    returns (p: nat)
    requires IsTitleGrouping(es, groups) && IsTitleGrouping(es, other) && m < |groups|
    ensures p < |other| && other[p].id == groups[m].id
  {
    GroupIdsMember(groups, groups[m].id);
    GroupIdsMember(other, groups[m].id);
    p :| 0 <= p < |other| && other[p].id == groups[m].id;
  }

  /** Two groupings that agree before position `m` agree at `m`. */
  lemma SameIdAt(es: seq<Entry>, g1: seq<TitleGroup>, g2: seq<TitleGroup>, m: nat)
    requires IsTitleGrouping(es, g1) && IsTitleGrouping(es, g2) && m < |g1| && m < |g2|
    requires forall p :: 0 <= p < m ==> g1[p].id == g2[p].id
    ensures g1[m].id == g2[m].id
  {
    var p := GroupPositionOf(es, g1, g2, m);
    var q := GroupPositionOf(es, g2, g1, m);
  }

  lemma {:induction false} SameIdsUpTo(es: seq<Entry>, g1: seq<TitleGroup>, g2: seq<TitleGroup>, m: nat)
    requires IsTitleGrouping(es, g1) && IsTitleGrouping(es, g2) && m <= |g1| && m <= |g2|
    ensures forall p :: 0 <= p < m ==> g1[p].id == g2[p].id
    decreases m
  {
    if m > 0 {
      SameIdsUpTo(es, g1, g2, m - 1);
      SameIdAt(es, g1, g2, m - 1);
    }
  }

  /** The grouping of the entries by title is determined by the entries. */
  lemma TitleGroupingUnique(es: seq<Entry>, g1: seq<TitleGroup>, g2: seq<TitleGroup>)
    requires IsTitleGrouping(es, g1) && IsTitleGrouping(es, g2)
    ensures g1 == g2
  {
    var n := if |g1| < |g2| then |g1| else |g2|;
    SameIdsUpTo(es, g1, g2, n);
    if |g1| < |g2| {
      var q := GroupPositionOf(es, g2, g1, n);
    } else if |g2| < |g1| {
      var p := GroupPositionOf(es, g1, g2, n);
    }
    assert forall p :: 0 <= p < |g1| ==> g1[p] == g2[p];
  }

  /**
    The calls `after` are the calls `before` followed by one count update per
    group of the grouping of `deleted` by title, in the groups' order.
  */
  ghost predicate IssuesGroupUpdates(deleted: seq<Entry>, before: seq<RepoCall>, after: seq<RepoCall>) {
    exists groups :: IsTitleGrouping(deleted, groups) && after == before + Updates(groups)
  }

  /** Once every entry is read, the groups are what `GroupByTitle` promises. */
  lemma GroupedAll(es: seq<Entry>, groups: seq<TitleGroup>, slot: map<string, nat>)
    requires Grouped(es, |es|, groups, slot)
    ensures IsTitleGrouping(es, groups)
  {
    assert es[..|es|] == es;
    forall x ensures x in GroupIds(groups) <==> x in TitleIds(es) {
      TitleIdsMember(es, x);
      GroupIdsMember(groups, x);
      if x in TitleIds(es) {
        var j :| 0 <= j < |es| && es[j].titleId == x;
        assert groups[slot[x]].id == x;
      }
      if x in GroupIds(groups) {
        var j :| 0 <= j < |groups| && groups[j].id == x;
        assert es[IndexOfTitle(es, x)].titleId == x;
      }
    }
  }

  /**
    The callback of the `reduce`: a title not in the `Map` yet gets a new
    value with count 1, appended after the others; a title already there has
    its value's count raised by one.
  */
  method AddToGroups(entries: seq<Entry>, i: nat, groups: seq<TitleGroup>, slot: map<string, nat>)
    returns (groups': seq<TitleGroup>, slot': map<string, nat>)
    requires i < |entries| && Grouped(entries, i, groups, slot)
    ensures Grouped(entries, i + 1, groups', slot')
  {
    var t := entries[i].titleId;
    if t !in slot {
      slot' := slot[t := |groups|];
      groups' := groups + [TitleGroup(t, 1)];
      GroupNewTitle(entries, i, groups, slot, groups', slot');
    } else {
      var j := slot[t];
      groups' := groups[j := TitleGroup(t, groups[j].entryCount + 1)];
      slot' := slot;
      GroupKnownTitle(entries, i, groups, slot, groups');
    }
  }

  /**
    The grouping `deleteEntriesBelongsToUsername` does with a `Map` inside
    `reduce`, then `[...map.values()]`: one group per title id, in the order
    of each id's first entry; each group counts the entries of its title; the
    counts add up to the number of entries.
  */
  method GroupByTitle(entries: seq<Entry>) returns (groups: seq<TitleGroup>)
    ensures IsTitleGrouping(entries, groups)
    ensures SumCounts(groups) == |entries|
  {
    groups := [];
    var slot: map<string, nat> := map[];  // the Map's keys, with the position of their value
    for i := 0 to |entries|
      invariant Grouped(entries, i, groups, slot)
    {
      groups, slot := AddToGroups(entries, i, groups, slot);
    }
    GroupedAll(entries, groups, slot);
  }

  lemma MultisetCons(es: seq<Entry>)
    requires es != []
    ensures multiset(es) == multiset{es[0]} + multiset(es[1..])
  {
    assert es == [es[0]] + es[1..];
  }

  /** The entries written by `username`, in collection order. */
  function WrittenBy(es: seq<Entry>, username: string): (r: seq<Entry>)
    ensures forall e :: e in r <==> e in es && e.writtenBy == username
  {
    if es == [] then []
    else (if es[0].writtenBy == username then [es[0]] else []) + WrittenBy(es[1..], username)
  }

  /** The entries not written by `username`, in collection order. */
  function NotWrittenBy(es: seq<Entry>, username: string): (r: seq<Entry>)
    ensures forall e :: e in r <==> e in es && e.writtenBy != username
  {
    if es == [] then []
    else (if es[0].writtenBy != username then [es[0]] else []) + NotWrittenBy(es[1..], username)
  }

  /** The entries other than those with id `entryId`, in collection order. */
  function WithoutId(es: seq<Entry>, entryId: string): (r: seq<Entry>)
    ensures forall e :: e in r <==> e in es && e.id != entryId
  {
    if es == [] then []
    else (if es[0].id != entryId then [es[0]] else []) + WithoutId(es[1..], entryId)
  }

  /** The user's entries occur in `WrittenBy` as often as in the collection, and no other entry does. */
  lemma {:induction false} WrittenByMultiset(es: seq<Entry>, username: string)
    ensures forall e: Entry :: multiset(WrittenBy(es, username))[e] == if e.writtenBy == username then multiset(es)[e] else 0
    decreases |es|
  {
    if es != [] {
      WrittenByMultiset(es[1..], username);
      MultisetCons(es);
    }
  }

  /** The other users' entries occur in `NotWrittenBy` as often as in the collection, and no other entry does. */
  lemma {:induction false} NotWrittenByMultiset(es: seq<Entry>, username: string)
    ensures forall e: Entry :: multiset(NotWrittenBy(es, username))[e] == if e.writtenBy != username then multiset(es)[e] else 0
    decreases |es|
  {
    if es != [] {
      NotWrittenByMultiset(es[1..], username);
      MultisetCons(es);
    }
  }

  /** The entries a bulk deletion removes and the entries it keeps together make up the collection. */
  lemma WrittenByPartition(es: seq<Entry>, username: string)
    ensures multiset(WrittenBy(es, username)) + multiset(NotWrittenBy(es, username)) == multiset(es)
  {
    WrittenByMultiset(es, username);
    NotWrittenByMultiset(es, username);
    assert forall e: Entry :: (multiset(WrittenBy(es, username)) + multiset(NotWrittenBy(es, username)))[e] == multiset(es)[e];
  }

  /** Removing an id keeps every other entry as often as the collection holds it. */
  lemma {:induction false} WithoutIdMultiset(es: seq<Entry>, entryId: string)
    ensures forall e: Entry :: multiset(WithoutId(es, entryId))[e] == if e.id != entryId then multiset(es)[e] else 0
    decreases |es|
  {
    if es != [] {
      WithoutIdMultiset(es[1..], entryId);
      MultisetCons(es);
    }
  }

  /** The entry with id `entryId`, if there is one. */
  function FindById(es: seq<Entry>, entryId: string): (r: Option<Entry>)
    ensures r.Some? ==> r.value in es && r.value.id == entryId
    ensures r.None? <==> forall e :: e in es ==> e.id != entryId
  {
    if es == [] then None
    else if es[0].id == entryId then Some(es[0])
    else FindById(es[1..], entryId)
  }

  /** No two entries share an id. */
  ghost predicate DistinctIds(es: seq<Entry>) {
    forall i, j :: 0 <= i < j < |es| ==> es[i].id != es[j].id
  }

  class EntryService {
    /** `validator.isMongoId`. */
    const isMongoId: string -> bool
    /**
      Whether `entriesRepository.deleteEntry(username, role, entryId)` lets this
      user, with this role, delete this entry.
    */
    const mayDelete: (string, int, Entry) -> bool

    var entries: seq<Entry>
    /** The `entry_count` of each title. */
    var titles: map<string, int>
    var usernames: set<string>
    /** Every repository call made so far, oldest first. */
    var calls: seq<RepoCall>

    ghost predicate Valid()
      reads this
    {
      DistinctIds(entries)
    }

    constructor (isMongoId: string -> bool, mayDelete: (string, int, Entry) -> bool,
                 entries: seq<Entry>, titles: map<string, int>, usernames: set<string>)
      requires DistinctIds(entries)
      ensures Valid()
      ensures this.isMongoId == isMongoId && this.mayDelete == mayDelete
      ensures this.entries == entries && this.titles == titles && this.usernames == usernames && calls == []
    {
      this.isMongoId := isMongoId;
      this.mayDelete := mayDelete;
      this.entries := entries;
      this.titles := titles;
      this.usernames := usernames;
      calls := [];
    }

    /**
      `getEntry`: a non-Mongo id is a `BadRequest` and no repository is
      called. Otherwise the repository's `getEntry` is called once; what it
      answers, `found`, is serialized as the `entry_detail` reply, and an error
      it raises propagates.
    */
    method GetEntryById(entryId: string, found: Result<Object, HttpError>) returns (r: Result<Reply, HttpError>)
      modifies this`calls
      ensures !isMongoId(entryId) ==> r == Err(BadRequest(NotMongoId)) && calls == old(calls)
      ensures isMongoId(entryId) ==> calls == old(calls) + [GetEntry(entryId)]
      ensures isMongoId(entryId) && found.Err? ==> r == Err(found.error)
      ensures isMongoId(entryId) && found.Ok? ==> r == Ok(Response("entry_detail", found.value))
    {
      if !isMongoId(entryId) {
        return Err(BadRequest(NotMongoId));
      }
      calls := calls + [GetEntry(entryId)];
      if found.Err? {
        return Err(found.error);
      }
      var entry := found.value;
      r := Ok(Response("entry_detail", entry));
    }

    /**
      `updateEntry`: a non-Mongo id is a `BadRequest` and no repository is
      called; otherwise the repository is asked to update, and what it answers,
      `updated`, is serialized as the `entry_detail` reply, an error it raises
      propagating.
    */
    method UpdateEntryText(username: string, entryId: string, text: string, updated: Result<Object, HttpError>)
      returns (r: Result<Reply, HttpError>)
      modifies this`calls
      ensures !isMongoId(entryId) ==> r == Err(BadRequest(NotMongoId)) && calls == old(calls)
      ensures isMongoId(entryId) ==> calls == old(calls) + [UpdateEntry(username, entryId, text)]
      ensures isMongoId(entryId) && updated.Err? ==> r == Err(updated.error)
      ensures isMongoId(entryId) && updated.Ok? ==> r == Ok(Response("entry_detail", updated.value))
    {
      if !isMongoId(entryId) {
        return Err(BadRequest(NotMongoId));
      }
      calls := calls + [UpdateEntry(username, entryId, text)];
      if updated.Err? {
        return Err(updated.error);
      }
      var entry := updated.value;
      r := Ok(Response("entry_detail", entry));
    }

    /**
      `createEntry`: trims the text; a text that is empty once trimmed is a
      `BadRequest` and nothing is touched. Otherwise the title's count goes up
      by one before the entry is created; a title that does not exist is a
      `BadRequest` and no entry is created. When the repository fails to
      create the entry (`createFails`), its error propagates and the raised
      count stays.
    */
    method CreateEntryFor(writtenBy: string, dto: CreateEntryDto, newId: string, createFails: bool)
      returns (r: Result<Entry, HttpError>)
      requires Valid()
      requires forall e :: e in entries ==> e.id != newId  // the store assigns a fresh id
      modifies this
      ensures Valid()
      ensures usernames == old(usernames)
      ensures AllSpace(dto.text) ==>
                r == Err(BadRequest(WhitespaceText))
                && entries == old(entries) && titles == old(titles) && calls == old(calls)
      ensures !AllSpace(dto.text) && dto.titleId !in old(titles) ==>
                r == Err(BadRequest(dto.titleId + " does not match in the database"))
                && entries == old(entries) && titles == old(titles)
                && calls == old(calls) + [UpdateEntryCount(dto.titleId, 1)]
      ensures !AllSpace(dto.text) && dto.titleId in old(titles) ==>
                && titles == old(titles)[dto.titleId := old(titles)[dto.titleId] + 1]
                && calls == old(calls) + [UpdateEntryCount(dto.titleId, 1),
                                          CreateEntry(writtenBy, dto.(text := Trim(dto.text)))]
      ensures !AllSpace(dto.text) && dto.titleId in old(titles) && createFails ==>
                r == Err(CollaboratorError) && entries == old(entries)
      ensures !AllSpace(dto.text) && dto.titleId in old(titles) && !createFails ==>
                var e := Entry(newId, dto.titleId, writtenBy, Trim(dto.text));
                r == Ok(e) && entries == old(entries) + [e]
    {
      var text := Trim(dto.text);
      var trimmed := dto.(text := text);
      if |trimmed.text| == 0 {
        return Err(BadRequest(WhitespaceText));
      }
      calls := calls + [UpdateEntryCount(trimmed.titleId, 1)];
      if trimmed.titleId !in titles {
        return Err(BadRequest(trimmed.titleId + " does not match in the database"));
      }
      titles := titles[trimmed.titleId := titles[trimmed.titleId] + 1];
      calls := calls + [CreateEntry(writtenBy, trimmed)];
      if createFails {
        return Err(CollaboratorError);
      }
      var e := Entry(newId, trimmed.titleId, writtenBy, trimmed.text);
      entries := entries + [e];
      r := Ok(e);
    }

    /**
      `voteEntry`: a non-Mongo id is a `BadRequest` before any repository is
      called; an entry that does not exist is a `BadRequest` and no vote is
      cast; otherwise the vote is passed to the repository, whose answer is
      `voted`: its error propagates, and otherwise the vote is confirmed.
    */
    method Vote(entryId: string, username: string, isUpVoted: bool, voted: Result<(), HttpError>)
      returns (r: Result<Reply, HttpError>)
      modifies this`calls
      ensures !isMongoId(entryId) ==> r == Err(BadRequest(NotMongoId)) && calls == old(calls)
      ensures isMongoId(entryId) && FindById(entries, entryId).None? ==>
                r == Err(BadRequest("Entry could not found by given id"))
                && calls == old(calls) + [FindEntry(entryId)]
      ensures isMongoId(entryId) && FindById(entries, entryId).Some? ==>
                calls == old(calls) + [FindEntry(entryId), VoteEntry(entryId, username, isUpVoted)]
      ensures isMongoId(entryId) && FindById(entries, entryId).Some? && voted.Err? ==> r == Err(voted.error)
      ensures isMongoId(entryId) && FindById(entries, entryId).Some? && voted.Ok? ==>
                r == Ok(Status("Entry has been voted.", 200))
    {
      if !isMongoId(entryId) {
        return Err(BadRequest(NotMongoId));
      }
      calls := calls + [FindEntry(entryId)];
      if FindById(entries, entryId).None? {
        return Err(BadRequest("Entry could not found by given id"));
      }
      calls := calls + [VoteEntry(entryId, username, isUpVoted)];
      if voted.Err? {
        return Err(voted.error);
      }
      r := Ok(Status("Entry has been voted.", 200));
    }

    /**
      `undoVoteOfEntry`: the same guards as `voteEntry`, in the same order, with
      its own messages; the repository's answer to the undo is `undone`.
    */
    method UndoVote(entryId: string, username: string, isUpVoted: bool, undone: Result<(), HttpError>)
      returns (r: Result<Reply, HttpError>)
      modifies this`calls
      ensures !isMongoId(entryId) ==> r == Err(BadRequest(NotMongoId)) && calls == old(calls)
      ensures isMongoId(entryId) && FindById(entries, entryId).None? ==>
                r == Err(BadRequest("Entry with that id could not found in the database"))
                && calls == old(calls) + [FindEntry(entryId)]
      ensures isMongoId(entryId) && FindById(entries, entryId).Some? ==>
                calls == old(calls) + [FindEntry(entryId), UndoVoteOfEntry(entryId, username, isUpVoted)]
      ensures isMongoId(entryId) && FindById(entries, entryId).Some? && undone.Err? ==> r == Err(undone.error)
      ensures isMongoId(entryId) && FindById(entries, entryId).Some? && undone.Ok? ==>
                r == Ok(Status("Entry has been un voted.", 200))
    {
      if !isMongoId(entryId) {
        return Err(BadRequest(NotMongoId));
      }
      calls := calls + [FindEntry(entryId)];
      if FindById(entries, entryId).None? {
        return Err(BadRequest("Entry with that id could not found in the database"));
      }
      calls := calls + [UndoVoteOfEntry(entryId, username, isUpVoted)];
      if undone.Err? {
        return Err(undone.error);
      }
      r := Ok(Status("Entry has been un voted.", 200));
    }

    /**
      `deleteEntry`: a non-Mongo id is a `BadRequest` before any repository is
      called. An unknown user, or an entry the repository does not delete,
      propagates the repository's error. Otherwise the entry is removed and its
      title's count goes down by exactly one; the count update is not guarded,
      so a missing title fails the request after the entry is gone.
    */
    method Delete(username: string, role: int, entryId: string) returns (r: Result<Reply, HttpError>)
      requires Valid()
      modifies this
      ensures Valid()
      ensures usernames == old(usernames)
      ensures !isMongoId(entryId) ==>
                r == Err(BadRequest(NotMongoId)) && calls == old(calls)
                && entries == old(entries) && titles == old(titles)
      ensures isMongoId(entryId) && username !in usernames ==>
                r == Err(CollaboratorError) && calls == old(calls) + [GetUserByUsername(username)]
                && entries == old(entries) && titles == old(titles)
      ensures isMongoId(entryId) && username in usernames &&
              (FindById(old(entries), entryId).None? || !mayDelete(username, role, FindById(old(entries), entryId).value)) ==>
                r == Err(CollaboratorError)
                && calls == old(calls) + [GetUserByUsername(username), DeleteEntry(username, role, entryId)]
                && entries == old(entries) && titles == old(titles)
      ensures isMongoId(entryId) && username in usernames &&
              FindById(old(entries), entryId).Some? && mayDelete(username, role, FindById(old(entries), entryId).value) ==>
                var t := FindById(old(entries), entryId).value.titleId;
                && entries == WithoutId(old(entries), entryId)
                && calls == old(calls) + [GetUserByUsername(username), DeleteEntry(username, role, entryId),
                                          UpdateEntryCount(t, -1)]
                && (t in old(titles) ==>
                      r == Ok(Status("Entry has been deleted.", 200)) && titles == old(titles)[t := old(titles)[t] - 1])
                && (t !in old(titles) ==> r == Err(CollaboratorError) && titles == old(titles))
    {
      if !isMongoId(entryId) {
        return Err(BadRequest(NotMongoId));
      }
      calls := calls + [GetUserByUsername(username)];
      if username !in usernames {
        return Err(CollaboratorError);
      }
      calls := calls + [DeleteEntry(username, role, entryId)];
      var found := FindById(entries, entryId);
      if found.None? || !mayDelete(username, role, found.value) {
        return Err(CollaboratorError);
      }
      var entry := found.value;
      entries := WithoutId(entries, entryId);
      assert DistinctIds(entries) by { WithoutIdKeepsDistinct(old(entries), entryId); }
      calls := calls + [UpdateEntryCount(entry.titleId, -1)];
      if entry.titleId !in titles {
        return Err(CollaboratorError);
      }
      titles := titles[entry.titleId := titles[entry.titleId] - 1];
      r := Ok(Status("Entry has been deleted.", 200));
    }

    /**
      The `map` over the groups in `deleteEntriesBelongsToUsername`: one count
      update per group, by minus its count, in the groups' order.
    */
    method DecrementCounts(groups: seq<TitleGroup>)
      modifies this`titles, this`calls
      ensures titles == Decremented(old(titles), groups)
      ensures calls == old(calls) + Updates(groups)
    {
      for k := 0 to |groups|
        invariant titles == Decremented(old(titles), groups[..k])
        invariant calls == old(calls) + Updates(groups[..k])
      {
        var item := groups[k];
        assert groups[..k + 1][..k] == groups[..k];
        calls := calls + [UpdateEntryCount(item.id, 0 - item.entryCount as int)];
        if item.id in titles {
          titles := titles[item.id := titles[item.id] - item.entryCount];
        }
      }
      assert groups[..|groups|] == groups;
    }

    /**
      The grouping and the updates of `deleteEntriesBelongsToUsername` for the
      deleted entries: every title's count goes down by the number of its
      deleted entries, and each update issued is by minus its title's number
      of deleted entries.
    */
    method DecrementByTitle(deleted: seq<Entry>)
      modifies this`titles, this`calls
      ensures titles.Keys == old(titles).Keys
      ensures forall t :: t in titles ==> titles[t] == old(titles)[t] - CountTitle(deleted, t)
      ensures IssuesGroupUpdates(deleted, old(calls), calls)
    {
      var groups := GroupByTitle(deleted);
      DecrementCounts(groups);
      DecrementedCounts(old(titles), groups);
      forall t | t in titles ensures titles[t] == old(titles)[t] - CountTitle(deleted, t) {
        GroupsAddUp(deleted, groups, t);
      }
    }

    /**
      `deleteEntriesBelongsToUsername`: an unknown user propagates the
      repository's error. Otherwise every entry of the user is removed, one
      count update per title is issued, and each title's count goes down by
      exactly the number of its removed entries; no other count changes.
      The updates are not awaited, so their failures never reach the reply.
    */
    method DeleteAllOf(username: string) returns (r: Result<Reply, HttpError>)
      requires Valid()
      modifies this
      ensures Valid()
      ensures usernames == old(usernames)
      ensures username !in usernames ==>
                r == Err(CollaboratorError) && calls == old(calls) + [GetUserByUsername(username)]
                && entries == old(entries) && titles == old(titles)
      ensures username in usernames ==>
                var deleted := WrittenBy(old(entries), username);
                && r == Ok(Status("Entries are deleted", 200))
                && entries == NotWrittenBy(old(entries), username)
                && titles.Keys == old(titles).Keys
                && (forall t :: t in titles ==> titles[t] == old(titles)[t] - CountTitle(deleted, t))
                && IssuesGroupUpdates(deleted, old(calls) + [GetUserByUsername(username), DeleteEntriesOf(username)], calls)
    {
      calls := calls + [GetUserByUsername(username)];
      if username !in usernames {
        return Err(CollaboratorError);
      }
      calls := calls + [DeleteEntriesOf(username)];
      var deleted := WrittenBy(entries, username);
      entries := NotWrittenBy(entries, username);
      assert DistinctIds(entries) by { NotWrittenByKeepsDistinct(old(entries), username); }
      ghost var before := calls;
      DecrementByTitle(deleted);
      assert before == old(calls) + [GetUserByUsername(username), DeleteEntriesOf(username)];
      r := Ok(Status("Entries are deleted", 200));
    }
  }

  /** Groups with distinct ids, one per title, each counting its title, add up to every title's count. */
  lemma GroupsAddUp(es: seq<Entry>, groups: seq<TitleGroup>, t: string)
    requires IsTitleGrouping(es, groups)
    ensures CountOfGroups(groups, t) == CountTitle(es, t)
  {
    CountOfDistinctGroups(groups, t);
    TitleIdsMember(es, t);
    GroupIdsMember(groups, t);
    if t !in TitleIds(es) {
      CountTitleAbsent(es, t);
    } else {
      var j :| 0 <= j < |groups| && groups[j].id == t;
    }
  }

  lemma {:induction false} WithoutIdKeepsDistinct(es: seq<Entry>, entryId: string)
    requires DistinctIds(es)
    ensures DistinctIds(WithoutId(es, entryId))
    decreases |es|
  {
    if es != [] {
      assert DistinctIds(es[1..]) by {
        forall i, j | 0 <= i < j < |es[1..]| ensures es[1..][i].id != es[1..][j].id {
          assert es[1..][i] == es[i + 1] && es[1..][j] == es[j + 1];
        }
      }
      WithoutIdKeepsDistinct(es[1..], entryId);
      var rest := WithoutId(es[1..], entryId);
      forall e | e in rest ensures e.id != es[0].id {
        var j :| 1 <= j < |es| && es[j] == e;
      }
    }
  }

  lemma {:induction false} NotWrittenByKeepsDistinct(es: seq<Entry>, username: string)
    requires DistinctIds(es)
    ensures DistinctIds(NotWrittenBy(es, username))
    decreases |es|
  {
    if es != [] {
      assert DistinctIds(es[1..]) by {
        forall i, j | 0 <= i < j < |es[1..]| ensures es[1..][i].id != es[1..][j].id {
          assert es[1..][i] == es[i + 1] && es[1..][j] == es[j + 1];
        }
      }
      NotWrittenByKeepsDistinct(es[1..], username);
      var rest := NotWrittenBy(es[1..], username);
      forall e | e in rest ensures e.id != es[0].id {
        var j :| 1 <= j < |es| && es[j] == e;
      }
    }
  }
}

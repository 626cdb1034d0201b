/**
 * The dashboard loader's view model: authored meetings are projected to a
 * summary record and then grouped by calendar day, and the insights tile
 * chooses between "mention" and "mentions".
 *
 * `Date.toDateString()` depends on the server's time zone, so it is a
 * parameter `dayKey` here and nothing is assumed about it.
 */
module Dashboard {
  import opened Wrappers

  /** A JavaScript `Date`: the instant it holds, in milliseconds since the epoch. */
  type Date = int

  datatype TalkingPoint = TalkingPoint(id: string, title: string, meetingId: string)

  /** A meeting row as `findMany` returns it, with its talking points included. */
  datatype Meeting = Meeting(
    id: string,
    title: string,
    date: Date,
    authorId: string,
    inviteeId: string,
    talkingPoints: seq<TalkingPoint>)

  /** The summary the dashboard shows for one meeting. */
  datatype MappedMeeting = MappedMeeting(id: string, title: string, date: Date, discussionPointCount: nat)

  /** One day of the dashboard, as the loader sends it: a day key and that day's meetings. */
  datatype DayGroup = DayGroup(date: string, meetings: seq<MappedMeeting>)

  // ---------------------------------------------------------------------------
  // Projection (`authoredMeetings.map`)
  // ---------------------------------------------------------------------------

  /** Each meeting keeps its id, title and date, and its talking points are replaced by their number. */
  function MapMeetings(ms: seq<Meeting>): (r: seq<MappedMeeting>)
    ensures |r| == |ms|
    ensures forall i :: 0 <= i < |ms| ==>
      && r[i].id == ms[i].id
      && r[i].title == ms[i].title
      && r[i].date == ms[i].date
      && r[i].discussionPointCount == |ms[i].talkingPoints|
  {
    if ms == [] then []
    else [MappedMeeting(ms[0].id, ms[0].title, ms[0].date, |ms[0].talkingPoints|)] + MapMeetings(ms[1..])
  }

  // ---------------------------------------------------------------------------
  // Reference definition of the grouping
  // ---------------------------------------------------------------------------

  predicate Distinct(keys: seq<string>) {
    forall a, b :: 0 <= a < b < |keys| ==> keys[a] != keys[b]
  }

  /** The day keys that occur in `ms`, each once, in the order of their first occurrence. */
  function DayKeys(ms: seq<MappedMeeting>, dayKey: Date -> string): seq<string>
  {
    if ms == [] then []
    else
      var keys := DayKeys(ms[..|ms| - 1], dayKey);
      var k := dayKey(ms[|ms| - 1].date);
      if k in keys then keys else keys + [k]
  }

  /** The meetings of `ms` that fall on day `key`, in input order. */
  function MeetingsOn(ms: seq<MappedMeeting>, key: string, dayKey: Date -> string): seq<MappedMeeting>
  {
    if ms == [] then []
    else
      var earlier := MeetingsOn(ms[..|ms| - 1], key, dayKey);
      if dayKey(ms[|ms| - 1].date) == key then earlier + [ms[|ms| - 1]] else earlier
  }

  /** One group per distinct day, in first-occurrence order, holding every meeting of that day. */
  function GroupedByDay(ms: seq<MappedMeeting>, dayKey: Date -> string): seq<DayGroup>
  {
    var keys := DayKeys(ms, dayKey);
    seq(|keys|, j requires 0 <= j < |keys| => DayGroup(keys[j], MeetingsOn(ms, keys[j], dayKey)))
  }

  /** The concatenation of all groups' meetings. */
  function Flatten(gs: seq<DayGroup>): seq<MappedMeeting>
  {
    if gs == [] then [] else gs[0].meetings + Flatten(gs[1..])
  }

  /** The input positions whose meeting falls on day `key`, in increasing order. */
  function Positions(ms: seq<MappedMeeting>, key: string, dayKey: Date -> string): (pos: seq<nat>)
    ensures forall a, b :: 0 <= a < b < |pos| ==> pos[a] < pos[b]
    ensures forall t :: 0 <= t < |pos| ==> pos[t] < |ms| && dayKey(ms[pos[t]].date) == key
    ensures forall p :: 0 <= p < |ms| && dayKey(ms[p].date) == key ==> p in pos
  {
    if ms == [] then []
    else
      var earlier := Positions(ms[..|ms| - 1], key, dayKey);
      if dayKey(ms[|ms| - 1].date) == key then earlier + [|ms| - 1] else earlier
  }

  /** The position of the first meeting on day `key`, or `|ms|` when there is none. */
  function FirstIndex(ms: seq<MappedMeeting>, key: string, dayKey: Date -> string): (p: nat)
    ensures p <= |ms|
    ensures forall q :: 0 <= q < p ==> dayKey(ms[q].date) != key
    ensures p < |ms| ==> dayKey(ms[p].date) == key
  {
    if ms == [] then 0
    else if dayKey(ms[0].date) == key then 0
    else 1 + FirstIndex(ms[1..], key, dayKey)
  }

  // ---------------------------------------------------------------------------
  // Properties of the reference definition
  // ---------------------------------------------------------------------------

  /** A day is listed exactly when some meeting falls on it, and no day is listed twice. */
  lemma {:induction false} DayKeysCharacterized(ms: seq<MappedMeeting>, dayKey: Date -> string)
    ensures forall k :: k in DayKeys(ms, dayKey) <==> exists i :: 0 <= i < |ms| && dayKey(ms[i].date) == k
    ensures Distinct(DayKeys(ms, dayKey))
  {
    if ms != [] {
      var init := ms[..|ms| - 1];
      DayKeysCharacterized(init, dayKey);
      forall k ensures k in DayKeys(ms, dayKey) <==> exists i :: 0 <= i < |ms| && dayKey(ms[i].date) == k {
        if k in DayKeys(ms, dayKey) {
          if k in DayKeys(init, dayKey) {
            var i :| 0 <= i < |init| && dayKey(init[i].date) == k;
            assert ms[i] == init[i];
          } else {
            assert dayKey(ms[|ms| - 1].date) == k;
          }
        }
        if exists i :: 0 <= i < |ms| && dayKey(ms[i].date) == k {
          var i :| 0 <= i < |ms| && dayKey(ms[i].date) == k;
          if i < |init| {
            assert init[i] == ms[i];
          }
        }
      }
    }
  }

  /** `MeetingsOn` selects exactly the meetings at `Positions`, in that order. */
  lemma {:induction false} MeetingsOnSelectsPositions(ms: seq<MappedMeeting>, key: string, dayKey: Date -> string)
    ensures |MeetingsOn(ms, key, dayKey)| == |Positions(ms, key, dayKey)|
    ensures forall t :: 0 <= t < |MeetingsOn(ms, key, dayKey)| ==>
      MeetingsOn(ms, key, dayKey)[t] == ms[Positions(ms, key, dayKey)[t]]
  {
    if ms != [] {
      var init := ms[..|ms| - 1];
      MeetingsOnSelectsPositions(init, key, dayKey);
      var pos := Positions(init, key, dayKey);
      forall t | 0 <= t < |pos| ensures init[pos[t]] == ms[pos[t]] { }
    }
  }

  /** A day on which no meeting falls has no meetings. */
  lemma MeetingsOnAbsentDay(ms: seq<MappedMeeting>, key: string, dayKey: Date -> string)
    requires forall i :: 0 <= i < |ms| ==> dayKey(ms[i].date) != key
    ensures MeetingsOn(ms, key, dayKey) == []
  {

  }

  /** No two groups share a day. */
  lemma GroupDatesDistinct(ms: seq<MappedMeeting>, dayKey: Date -> string)
    ensures forall a, b :: 0 <= a < b < |GroupedByDay(ms, dayKey)| ==>
      GroupedByDay(ms, dayKey)[a].date != GroupedByDay(ms, dayKey)[b].date
  {
    DayKeysCharacterized(ms, dayKey);
  }

  /** Adding a meeting whose day already has group `j` appends it to that group only. */
  lemma GroupedByDayHit(ms: seq<MappedMeeting>, m: MappedMeeting, dayKey: Date -> string, j: nat)
    requires j < |GroupedByDay(ms, dayKey)| && GroupedByDay(ms, dayKey)[j].date == dayKey(m.date)
    ensures var gs := GroupedByDay(ms, dayKey);
      GroupedByDay(ms + [m], dayKey) == gs[j := DayGroup(gs[j].date, gs[j].meetings + [m])]
  {
    var ms' := ms + [m];
    assert ms'[..|ms'| - 1] == ms;
    var keys := DayKeys(ms, dayKey);
    assert dayKey(m.date) == keys[j];
    assert DayKeys(ms', dayKey) == keys;
    DayKeysCharacterized(ms, dayKey);
    var gs := GroupedByDay(ms, dayKey);
    var gs' := GroupedByDay(ms', dayKey);
    var expected := gs[j := DayGroup(gs[j].date, gs[j].meetings + [m])];
    assert |gs'| == |expected|;
    forall i | 0 <= i < |gs'| ensures gs'[i] == expected[i] {
      if i != j {
        assert keys[i] != keys[j];
      }
    }
  }

  /** Adding a meeting whose day has no group yet appends a new group holding just that meeting. */
  lemma GroupedByDayMiss(ms: seq<MappedMeeting>, m: MappedMeeting, dayKey: Date -> string)
    requires forall j :: 0 <= j < |GroupedByDay(ms, dayKey)| ==> GroupedByDay(ms, dayKey)[j].date != dayKey(m.date)
    ensures GroupedByDay(ms + [m], dayKey) == GroupedByDay(ms, dayKey) + [DayGroup(dayKey(m.date), [m])]
  {
    var ms' := ms + [m];
    assert ms'[..|ms'| - 1] == ms;
    var k := dayKey(m.date);
    var keys := DayKeys(ms, dayKey);
    forall j | 0 <= j < |keys| ensures keys[j] != k {
      assert GroupedByDay(ms, dayKey)[j].date == keys[j];
    }
    assert k !in keys;
    DayKeysCharacterized(ms, dayKey);
    assert !exists i :: 0 <= i < |ms| && dayKey(ms[i].date) == k;
    MeetingsOnAbsentDay(ms, k, dayKey);
    var gs := GroupedByDay(ms, dayKey);
    var gs' := GroupedByDay(ms', dayKey);
    var expected := gs + [DayGroup(k, [m])];
    assert |gs'| == |expected|;
    forall i | 0 <= i < |gs'| ensures gs'[i] == expected[i] {
      if i < |keys| {
        assert keys[i] != k;
      }
    }
  }

  lemma {:induction false} FlattenAppend(gs: seq<DayGroup>, g: DayGroup)
    ensures Flatten(gs + [g]) == Flatten(gs) + g.meetings
  {
    if gs != [] {
      assert (gs + [g])[1..] == gs[1..] + [g];
      FlattenAppend(gs[1..], g);
    }
  }

  lemma {:induction false} FlattenPush(gs: seq<DayGroup>, j: nat, m: MappedMeeting)
    requires j < |gs|
    ensures multiset(Flatten(gs[j := DayGroup(gs[j].date, gs[j].meetings + [m])]))
         == multiset(Flatten(gs)) + multiset{m}
  {
    var g' := DayGroup(gs[j].date, gs[j].meetings + [m]);
    if j == 0 {
      assert gs[j := g'][1..] == gs[1..];
    } else {
      assert gs[j := g'][1..] == gs[1..][j - 1 := g'];
      FlattenPush(gs[1..], j - 1, m);
    }
  }

  /** Grouping loses and duplicates no meeting. */
  lemma {:induction false} GroupingIsPermutation(ms: seq<MappedMeeting>, dayKey: Date -> string)
    ensures multiset(Flatten(GroupedByDay(ms, dayKey))) == multiset(ms)
  {
    if ms != [] {
      var init, m := ms[..|ms| - 1], ms[|ms| - 1];
      assert ms == init + [m];
      GroupingIsPermutation(init, dayKey);
      var gs := GroupedByDay(init, dayKey);
      if j :| 0 <= j < |gs| && gs[j].date == dayKey(m.date) {
        GroupedByDayHit(init, m, dayKey, j);
        FlattenPush(gs, j, m);
      } else {
        GroupedByDayMiss(init, m, dayKey);
        FlattenAppend(gs, DayGroup(dayKey(m.date), [m]));
      }
    }
  }

  /**
   * The groups partition the input: every meeting is kept exactly once, each
   * group holds only meetings of its own day, no day has two groups, no group
   * is empty, and an empty input gives no groups.
   */
  lemma GroupedByDayIsPartition(ms: seq<MappedMeeting>, dayKey: Date -> string)
    ensures var gs := GroupedByDay(ms, dayKey);
      && multiset(Flatten(gs)) == multiset(ms)
      && |Flatten(gs)| == |ms|
      && (forall j, t :: 0 <= j < |gs| && 0 <= t < |gs[j].meetings| ==> dayKey(gs[j].meetings[t].date) == gs[j].date)
      && (forall a, b :: 0 <= a < b < |gs| ==> gs[a].date != gs[b].date)
      && (forall j :: 0 <= j < |gs| ==> gs[j].meetings != [])
      && (forall i :: 0 <= i < |ms| ==> exists j :: 0 <= j < |gs| && gs[j].date == dayKey(ms[i].date))
      && (ms == [] <==> gs == [])
  {
    var gs := GroupedByDay(ms, dayKey);
    GroupingIsPermutation(ms, dayKey);
    assert |Flatten(gs)| == |multiset(Flatten(gs))| == |multiset(ms)| == |ms|;
    DayKeysCharacterized(ms, dayKey);
    var keys := DayKeys(ms, dayKey);
    forall j, t | 0 <= j < |gs| && 0 <= t < |gs[j].meetings|
      ensures dayKey(gs[j].meetings[t].date) == gs[j].date
    {
      MeetingsOnSelectsPositions(ms, keys[j], dayKey);
    }
    forall j | 0 <= j < |gs| ensures gs[j].meetings != [] {
      assert keys[j] in keys;
      var i :| 0 <= i < |ms| && dayKey(ms[i].date) == keys[j];
      MeetingsOnSelectsPositions(ms, keys[j], dayKey);
      assert i in Positions(ms, keys[j], dayKey);
    }
    forall i | 0 <= i < |ms| ensures exists j :: 0 <= j < |gs| && gs[j].date == dayKey(ms[i].date) {
      var k := dayKey(ms[i].date);
      assert k in keys;
      var j :| 0 <= j < |keys| && keys[j] == k;
      assert gs[j].date == k;
    }
    if ms != [] {
      assert dayKey(ms[0].date) in keys;
    }
  }

  /** Day keys are listed in the order of their first occurrence, and each does occur. */
  lemma {:induction false} DayKeysFollowFirstOccurrence(ms: seq<MappedMeeting>, dayKey: Date -> string)
    ensures forall j :: 0 <= j < |DayKeys(ms, dayKey)| ==> FirstIndex(ms, DayKeys(ms, dayKey)[j], dayKey) < |ms|
    ensures forall a, b :: 0 <= a < b < |DayKeys(ms, dayKey)| ==>
      FirstIndex(ms, DayKeys(ms, dayKey)[a], dayKey) < FirstIndex(ms, DayKeys(ms, dayKey)[b], dayKey)
  {
    if ms != [] {
      var init, m := ms[..|ms| - 1], ms[|ms| - 1];
      assert init + [m] == ms;
      DayKeysFollowFirstOccurrence(init, dayKey);
      DayKeysCharacterized(init, dayKey);
      var keys := DayKeys(init, dayKey);
      forall j | 0 <= j < |keys|
        ensures FirstIndex(ms, keys[j], dayKey) == FirstIndex(init, keys[j], dayKey)
      {
        assert keys[j] in keys;
        FirstIndexOfPrefix(init, m, keys[j], dayKey);
      }
      var k := dayKey(m.date);
      if k in keys {
        assert DayKeys(ms, dayKey) == keys;
      } else {
        assert DayKeys(ms, dayKey) == keys + [k];
        assert !exists i :: 0 <= i < |init| && dayKey(init[i].date) == k;
        forall q | 0 <= q < |init| ensures dayKey(ms[q].date) != k {
          assert ms[q] == init[q];
        }
        assert FirstIndex(ms, k, dayKey) == |init|;
        var keys' := keys + [k];
        forall a, b | 0 <= a < b < |keys'|
          ensures FirstIndex(ms, keys'[a], dayKey) < FirstIndex(ms, keys'[b], dayKey)
        {
          assert keys'[a] == keys[a];
          assert FirstIndex(init, keys[a], dayKey) < |init|;
          if b < |keys| {
            assert keys'[b] == keys[b];
            assert FirstIndex(init, keys[a], dayKey) < FirstIndex(init, keys[b], dayKey);
          }
        }
      }
    }
  }

  /**
   * Groups appear in the order in which their day first occurs in the input,
   * and each group's day does occur in it.
   */
  lemma GroupsFollowFirstOccurrence(ms: seq<MappedMeeting>, dayKey: Date -> string)
    ensures var gs := GroupedByDay(ms, dayKey);
      && (forall j :: 0 <= j < |gs| ==> FirstIndex(ms, gs[j].date, dayKey) < |ms|)
      && (forall a, b :: 0 <= a < b < |gs| ==>
            FirstIndex(ms, gs[a].date, dayKey) < FirstIndex(ms, gs[b].date, dayKey))
  {
    DayKeysFollowFirstOccurrence(ms, dayKey);
    var gs := GroupedByDay(ms, dayKey);
    var keys := DayKeys(ms, dayKey);
    assert |gs| == |keys|;
    forall j | 0 <= j < |gs| ensures FirstIndex(ms, gs[j].date, dayKey) < |ms| {
      assert gs[j].date == keys[j];
      assert FirstIndex(ms, keys[j], dayKey) < |ms|;
    }
    forall a, b | 0 <= a < b < |gs|
      ensures FirstIndex(ms, gs[a].date, dayKey) < FirstIndex(ms, gs[b].date, dayKey)
    {
      assert gs[a].date == keys[a] && gs[b].date == keys[b];
      assert FirstIndex(ms, keys[a], dayKey) < FirstIndex(ms, keys[b], dayKey);
    }
  }

  /** The first occurrence of a day already present in a prefix does not move when meetings are appended. */
  lemma FirstIndexOfPrefix(init: seq<MappedMeeting>, m: MappedMeeting, key: string, dayKey: Date -> string)
    requires exists i :: 0 <= i < |init| && dayKey(init[i].date) == key
    ensures FirstIndex(init + [m], key, dayKey) == FirstIndex(init, key, dayKey) < |init|
  {
    var ms := init + [m];
    var p0, p1 := FirstIndex(init, key, dayKey), FirstIndex(ms, key, dayKey);
    var i :| 0 <= i < |init| && dayKey(init[i].date) == key;
    assert p0 <= i;
    assert ms[p0] == init[p0];
    assert p1 <= p0;
    assert ms[p1] == init[p1];
  }

  /**
   * Within a group, meetings keep their relative input order: group `j` is the
   * selection of the input at the increasing positions of its day.
   */
  lemma GroupsAreStable(ms: seq<MappedMeeting>, dayKey: Date -> string)
    ensures var gs := GroupedByDay(ms, dayKey);
      forall j :: 0 <= j < |gs| ==>
        && |gs[j].meetings| == |Positions(ms, gs[j].date, dayKey)|
        && forall t :: 0 <= t < |gs[j].meetings| ==> gs[j].meetings[t] == ms[Positions(ms, gs[j].date, dayKey)[t]]
  {
    var gs := GroupedByDay(ms, dayKey);
    forall j | 0 <= j < |gs|
      ensures |gs[j].meetings| == |Positions(ms, gs[j].date, dayKey)|
      ensures forall t :: 0 <= t < |gs[j].meetings| ==> gs[j].meetings[t] == ms[Positions(ms, gs[j].date, dayKey)[t]]
    {
      MeetingsOnSelectsPositions(ms, gs[j].date, dayKey);
    }
  }

  /** Two meetings on one day and one on another give two groups, the first in input order. */
  lemma TwoDaysExample(a: MappedMeeting, b: MappedMeeting, c: MappedMeeting, dayKey: Date -> string)
    requires dayKey(a.date) == dayKey(b.date) != dayKey(c.date)
    ensures GroupedByDay([a, b, c], dayKey) == [DayGroup(dayKey(a.date), [a, b]), DayGroup(dayKey(c.date), [c])]
  {
    assert [a, b, c][..2] == [a, b];
    assert [a, b][..1] == [a];
    assert [a][..0] == [];
    GroupedByDayMiss([], a, dayKey);
    assert [] + [a] == [a];
    GroupedByDayHit([a], b, dayKey, 0);
    assert [a] + [b] == [a, b];
    GroupedByDayMiss([a, b], c, dayKey);
    assert [a, b] + [c] == [a, b, c];
  }

  // ---------------------------------------------------------------------------
  // The loader's reduce, as the source runs it
  // ---------------------------------------------------------------------------

  /** An accumulator entry of the reduce: a day key and the meetings pushed into it so far. */
  class MeetingsGroupedByDate {
    const date: string
    var meetings: seq<MappedMeeting>

    constructor (date: string, first: MappedMeeting)
      ensures this.date == date && meetings == [first]
    {
      this.date := date;
      meetings := [first];
    }

    /** `meetings.push(m)`. */
    method Push(m: MappedMeeting)
      modifies this
      ensures meetings == old(meetings) + [m]
    {
      meetings := meetings + [m];
    }
  }

  /** The value `json(...)` sends for the accumulator: each entry's current day key and meetings. */
  function Snapshot(acc: seq<MeetingsGroupedByDate>): (r: seq<DayGroup>)
    reads acc
    ensures |r| == |acc|
    ensures forall j :: 0 <= j < |acc| ==> r[j] == DayGroup(acc[j].date, acc[j].meetings)
  {
    if acc == [] then []
    else Snapshot(acc[..|acc| - 1]) + [DayGroup(acc[|acc| - 1].date, acc[|acc| - 1].meetings)]
  }

  /** `acc.find(group => group.date === key)`: the index of the first entry for day `key`, if any. */
  method FindGroup(acc: seq<MeetingsGroupedByDate>, key: string) returns (found: Option<nat>)
    ensures found.Some? ==> found.value < |acc| && acc[found.value].date == key
    ensures found.Some? ==> forall j :: 0 <= j < found.value ==> acc[j].date != key
    ensures found.None? <==> forall j :: 0 <= j < |acc| ==> acc[j].date != key
  {
    var j := 0;
    while j < |acc|
      invariant 0 <= j <= |acc|
      invariant forall i :: 0 <= i < j ==> acc[i].date != key
    {
      if acc[j].date == key {
        return Some(j);
      }
      j := j + 1;
    }
    return None;
  }

  /** Pushing into entry `j` changes that entry of the snapshot and no other, since entries have distinct days. */
  method PushKeepsOthers(acc: seq<MeetingsGroupedByDate>, j: nat, m: MappedMeeting)
    requires j < |acc|
    requires forall a, b :: 0 <= a < b < |acc| ==> acc[a].date != acc[b].date
    modifies acc[j]
    ensures Snapshot(acc) == old(Snapshot(acc))[j := DayGroup(acc[j].date, old(acc[j].meetings) + [m])]
  {
    acc[j].Push(m);
    forall a | 0 <= a < |acc| && a != j ensures acc[a] != acc[j] {
      if a < j { assert acc[a].date != acc[j].date; } else { assert acc[j].date != acc[a].date; }
    }
  }

  /**
   * The reduce: for each meeting, push it into the entry for its day when one
   * exists, and otherwise append a new entry holding just that meeting.
   */
  method GroupByDay(meetings: seq<MappedMeeting>, dayKey: Date -> string) returns (acc: seq<MeetingsGroupedByDate>)
    ensures forall g :: g in acc ==> fresh(g)
    ensures Snapshot(acc) == GroupedByDay(meetings, dayKey)
  {
    acc := [];
    for i := 0 to |meetings|
      invariant forall g :: g in acc ==> fresh(g)
      invariant Snapshot(acc) == GroupedByDay(meetings[..i], dayKey)
    {
      var meeting := meetings[i];
      var key := dayKey(meeting.date);
      ghost var done := meetings[..i];
      assert meetings[..i + 1] == done + [meeting];
      var existing := FindGroup(acc, key);
      if existing.Some? {
        var j := existing.value;
        GroupDatesDistinct(done, dayKey);
        GroupedByDayHit(done, meeting, dayKey, j);
        assert acc[j] in acc;
        PushKeepsOthers(acc, j, meeting);
      } else {
        GroupedByDayMiss(done, meeting, dayKey);
        var group := new MeetingsGroupedByDate(key, meeting);
        acc := acc + [group];
      }
    }
    assert meetings[..|meetings|] == meetings;
  }

  /** The loader's view model: the authored meetings, projected and grouped by day. */
  method Loader(authoredMeetings: seq<Meeting>, dayKey: Date -> string) returns (meetingGroups: seq<DayGroup>)
    ensures meetingGroups == GroupedByDay(MapMeetings(authoredMeetings), dayKey)
  {
    var mappedMeetings := MapMeetings(authoredMeetings);
    var acc := GroupByDay(mappedMeetings, dayKey);
    meetingGroups := Snapshot(acc);
  }

  // ---------------------------------------------------------------------------
  // Insights tile
  // ---------------------------------------------------------------------------

  /** The noun shown after a mention count: singular exactly when the count is one. */
  function MentionText(mentionNumber: int): (text: string)
    ensures text == "mention" <==> mentionNumber == 1
    ensures text == "mention" || text == "mentions"
  {
    if mentionNumber == 1 then "mention" else "mentions"
  }
}

/** Repeating groups read off a parsed message's fields (ReadGroup in
    src/feed_handler/fix/fix_message.cpp; FIX 4.4 Volume 1, "Repeating Groups"). */
module FixGroups {
  import opened BookTypes
  import opened Decimal
  import opened FixFields
  import opened FixMessages

  datatype Group = Group(entries: seq<seq<Field>>, declared: nat) {
    predicate Truncated() {
      |entries| < declared
    }
  }

  datatype GroupResult = GroupRead(group: Group) | GroupFailed(error: FixError)

  // ------------------------------------------------------------------------------------ what a group is

  function Join(entries: seq<seq<Field>>): seq<Field> {
    if entries == [] then [] else Join(entries[..|entries| - 1]) + entries[|entries| - 1]
  }

  /** One repetition: the delimiter first and nowhere else. */
  predicate IsEntry(entry: seq<Field>, delimiter: int) {
    entry != [] && entry[0].tag == delimiter && forall i :: 1 <= i < |entry| ==> entry[i].tag != delimiter
  }

  predicate AllMembers(fields: seq<Field>, members: seq<int>) {
    forall i :: 0 <= i < |fields| ==> fields[i].tag in members
  }

  /** The entries tile a run of member fields at the start of `fields`, and the run stops only at the end
      of the fields, at a field that is no member, or at the delimiter of an entry too many. */
  ghost predicate Tiles(entries: seq<seq<Field>>, fields: seq<Field>, members: seq<int>, declared: nat)
    requires fields != []
  {
    var delimiter, run := fields[0].tag, Join(entries);
    && run <= fields && AllMembers(run, members)
    && (forall k :: 0 <= k < |entries| ==> IsEntry(entries[k], delimiter))
    && |entries| <= declared
    && (|run| == |fields| || fields[|run|].tag !in members || (|entries| == declared && fields[|run|].tag == delimiter))
  }

  // ----------------------------------------------------------------------- the tiling is unique and full

  /** The fields up to the first that is no member. */
  function MemberRun(fields: seq<Field>, members: seq<int>): (run: seq<Field>)
    ensures run <= fields && AllMembers(run, members)
    ensures |run| == |fields| || fields[|run|].tag !in members
  {
    if fields == [] || fields[0].tag !in members then [] else [fields[0]] + MemberRun(fields[1..], members)
  }

  /** How many repetitions are on the wire. */
  function Delimiters(fields: seq<Field>, delimiter: int): nat {
    if fields == [] then 0
    else Delimiters(fields[..|fields| - 1], delimiter) + if fields[|fields| - 1].tag == delimiter then 1 else 0
  }

  lemma {:induction false} DelimitersAppend(a: seq<Field>, b: seq<Field>, delimiter: int)
    ensures Delimiters(a + b, delimiter) == Delimiters(a, delimiter) + Delimiters(b, delimiter)
    decreases |b|
  {
    if b == [] {
      assert a + b == a;
    } else {
      assert (a + b)[..|a + b| - 1] == a + b[..|b| - 1];
      DelimitersAppend(a, b[..|b| - 1], delimiter);
    }
  }

  lemma {:induction false} NoDelimiters(fields: seq<Field>, delimiter: int)
    requires forall i :: 0 <= i < |fields| ==> fields[i].tag != delimiter
    ensures Delimiters(fields, delimiter) == 0
  {
    if fields != [] {
      NoDelimiters(fields[..|fields| - 1], delimiter);
    }
  }

  lemma EntryHasOne(entry: seq<Field>, delimiter: int)
    requires IsEntry(entry, delimiter)
    ensures Delimiters(entry, delimiter) == 1
  {
    assert entry == [entry[0]] + entry[1..];
    DelimitersAppend([entry[0]], entry[1..], delimiter);
    NoDelimiters(entry[1..], delimiter);
    assert [entry[0]][..0] == [];
  }

  lemma {:induction false} JoinedDelimiters(entries: seq<seq<Field>>, delimiter: int)
    requires forall k :: 0 <= k < |entries| ==> IsEntry(entries[k], delimiter)
    ensures Delimiters(Join(entries), delimiter) == |entries|
  {
    hide Delimiters, IsEntry;
    if entries == [] {
      NoDelimiters([], delimiter);
    } else {
      var front, last := entries[..|entries| - 1], entries[|entries| - 1];
      JoinedDelimiters(front, delimiter);
      EntryHasOne(last, delimiter);
      DelimitersAppend(Join(front), last, delimiter);
    }
  }

  /** A run of members is no longer than the longest. */
  lemma RunIsWithin(run: seq<Field>, fields: seq<Field>, members: seq<int>)
    requires run <= fields && AllMembers(run, members)
    ensures run <= MemberRun(fields, members)
  {
    var longest := MemberRun(fields, members);
    forall i | 0 <= i < |run| ensures fields[i].tag in members {
      assert run[i] == fields[i];
    }
    assert |run| <= |longest|;
    assert run == fields[..|run|] == longest[..|run|];
  }

  /** NumInGroup and the wire are both respected: there are as many entries as declared, or as many as
      there are delimiters in the member run, whichever is fewer. */
  lemma EntryCount(entries: seq<seq<Field>>, fields: seq<Field>, members: seq<int>, declared: nat)
    requires fields != [] && Tiles(entries, fields, members, declared)
    ensures var present := Delimiters(MemberRun(fields, members), fields[0].tag);
            |entries| == if declared < present then declared else present
  {
    hide Delimiters, MemberRun, Join;
    var delimiter, run, longest := fields[0].tag, Join(entries), MemberRun(fields, members);
    JoinedDelimiters(entries, delimiter);
    RunIsWithin(run, fields, members);
    var rest := longest[|run|..];
    assert longest == run + rest;
    DelimitersAppend(run, rest, delimiter);
    if rest != [] {
      assert rest[0] == longest[|run|] == fields[|run|];
      assert rest[0].tag in members;
    } else {
      NoDelimiters(rest, delimiter);
    }
  }

  /** The run a tiling covers is fixed by where it must stop, so a group is read in one way only. */
  lemma {:induction false} TilingUnique(a: seq<seq<Field>>, b: seq<seq<Field>>, fields: seq<Field>, members: seq<int>, declared: nat)
    requires fields != [] && Tiles(a, fields, members, declared) && Tiles(b, fields, members, declared)
    ensures a == b
  {
    hide Delimiters, MemberRun, Join;
    var delimiter := fields[0].tag;
    SameRun(a, b, fields, members, declared);
    SameEntries(a, b, delimiter);
  }

  lemma SameRun(a: seq<seq<Field>>, b: seq<seq<Field>>, fields: seq<Field>, members: seq<int>, declared: nat)
    requires fields != [] && Tiles(a, fields, members, declared) && Tiles(b, fields, members, declared)
    ensures Join(a) == Join(b)
  {
    if |Join(a)| < |Join(b)| {
      NotLonger(a, b, fields, members, declared);
    } else if |Join(b)| < |Join(a)| {
      NotLonger(b, a, fields, members, declared);
    }
  }

  lemma NotLonger(a: seq<seq<Field>>, b: seq<seq<Field>>, fields: seq<Field>, members: seq<int>, declared: nat)
    requires fields != [] && Tiles(a, fields, members, declared) && Tiles(b, fields, members, declared)
    ensures |Join(a)| >= |Join(b)|
  {
    hide Delimiters, Join;
    var delimiter, short, long := fields[0].tag, Join(a), Join(b);
    JoinedDelimiters(a, delimiter);
    JoinedDelimiters(b, delimiter);
    if |short| < |long| {
      var rest := long[|short|..];
      assert long == short + rest;
      DelimitersAppend(short, rest, delimiter);
      assert rest[0] == fields[|short|];
      assert rest[0].tag in members;
      DelimitersAppend([rest[0]], rest[1..], delimiter);
      assert rest == [rest[0]] + rest[1..];
      OneDelimiter(rest[0], delimiter);
      assert false;
    }
  }

  lemma OneDelimiter(field: Field, delimiter: int)
    ensures Delimiters([field], delimiter) == if field.tag == delimiter then 1 else 0
  {
    assert [field][..0] == [];
  }

  lemma {:induction false} SameEntries(a: seq<seq<Field>>, b: seq<seq<Field>>, delimiter: int)
    requires Join(a) == Join(b)
    requires forall k :: 0 <= k < |a| ==> IsEntry(a[k], delimiter)
    requires forall k :: 0 <= k < |b| ==> IsEntry(b[k], delimiter)
    ensures a == b
  {
    JoinNotEmpty(a, delimiter);
    JoinNotEmpty(b, delimiter);
    if a != [] {
      var x, y := a[|a| - 1], b[|b| - 1];
      var front, other := Join(a[..|a| - 1]), Join(b[..|b| - 1]);
      LastEntryStarts(front, x, other, y, delimiter);
      LastEntryStarts(other, y, front, x, delimiter);
      assert front == (front + x)[..|front|] && other == (other + y)[..|other|];
      assert x == (front + x)[|front|..] && y == (other + y)[|other|..];
      SameEntries(a[..|a| - 1], b[..|b| - 1], delimiter);
      assert a == a[..|a| - 1] + [x] && b == b[..|b| - 1] + [y];
    }
  }

  lemma JoinNotEmpty(entries: seq<seq<Field>>, delimiter: int)
    requires forall k :: 0 <= k < |entries| ==> IsEntry(entries[k], delimiter)
    ensures entries == [] <==> Join(entries) == []
  {
    if entries != [] {
      assert IsEntry(entries[|entries| - 1], delimiter);
    }
  }

  /** The last entry starts at the last delimiter. */
  lemma LastEntryStarts(front: seq<Field>, x: seq<Field>, other: seq<Field>, y: seq<Field>, delimiter: int)
    requires front + x == other + y && IsEntry(x, delimiter) && IsEntry(y, delimiter)
    ensures |other| <= |front|
  {
    var run := front + x;
    forall j | |front| < j < |run| ensures run[j].tag != delimiter {
      assert run[j] == x[j - |front|];
    }
    assert run[|other|] == y[0];
  }

  // -------------------------------------------------------------------------------- the source's own form

  /** The first place of a tag, or the length when it does not occur. */
  function TagAt(fields: seq<Field>, tag: int): (at: nat)
    ensures at <= |fields| && (at < |fields| ==> fields[at].tag == tag)
    ensures forall i :: 0 <= i < at ==> fields[i].tag != tag
  {
    if fields == [] || fields[0].tag == tag then 0 else 1 + TagAt(fields[1..], tag)
  }

  /** What ReadGroup may answer. */
  ghost predicate IsGroup(r: GroupResult, fields: seq<Field>, countTag: int, members: seq<int>) {
    var at := TagAt(fields, countTag);
    if at == |fields| then r == GroupFailed(NoGroupCount)
    else
      var declared := ToInt(fields[at].value);
      if declared.None? || declared.value < 0 then r == GroupFailed(BadGroupCount)
      else
        && r.GroupRead? && r.group.declared == declared.value
        && var rest := fields[at + 1..];
           if declared.value == 0 || rest == [] || rest[0].tag !in members then r.group.entries == []
           else Tiles(r.group.entries, rest, members, declared.value)
  }

  /** ReadGroup has one answer for every message. */
  lemma GroupUnique(a: GroupResult, b: GroupResult, fields: seq<Field>, countTag: int, members: seq<int>)
    requires IsGroup(a, fields, countTag, members) && IsGroup(b, fields, countTag, members)
    ensures a == b
  {
    hide Tiles, ToInt;
    var at := TagAt(fields, countTag);
    if a.GroupRead? && at < |fields| {
      var rest := fields[at + 1..];
      if a.group.declared != 0 && rest != [] && rest[0].tag in members {
        TilingUnique(a.group.entries, b.group.entries, rest, members, a.group.declared);
      }
    }
  }

  /** The scan for delimiters: where entries start and where the group ends. */
  method FindEntries(fields: seq<Field>, members: seq<int>, declared: nat) returns (starts: seq<nat>, end: nat)
    requires fields != [] && fields[0].tag in members && declared > 0
    ensures Marks(starts, end, fields)
    ensures AllMembers(fields[..end], members) && 0 < |starts| <= declared
    ensures end == |fields| || fields[end].tag !in members || (|starts| == declared && fields[end].tag == fields[0].tag)
  {
    hide Marks;
    var delimiter := fields[0].tag;
    starts, end := [], 0;
    while end < |fields| && fields[end].tag in members
      invariant 0 <= end <= |fields|
      invariant end == 0 ==> starts == []
      invariant end > 0 ==> Marks(starts, end, fields) && 0 < |starts|
      invariant AllMembers(fields[..end], members) && |starts| <= declared
    {
      MarksStep(starts, end, fields);
      if fields[end].tag == delimiter {
        if |starts| == declared {
          return;
        }
        starts := starts + [end];
      }
      end := end + 1;
    }
  }

  lemma MarksStep(starts: seq<nat>, end: nat, fields: seq<Field>)
    requires end < |fields| && (if end == 0 then starts == [] else Marks(starts, end, fields))
    ensures Marks(if fields[end].tag == fields[0].tag then starts + [end] else starts, end + 1, fields)
  {
    var found := fields[end].tag == fields[0].tag;
    var after := if found then starts + [end] else starts;
    forall i | 0 <= i < end + 1 && fields[i].tag == fields[0].tag ensures i in after {
      if i == end {
        assert after[|starts|] == end;
      } else {
        StillIn(starts, end, i);
      }
    }
    forall i, j | 0 <= i < j < |after| ensures after[i] < after[j] {
      assert i < |starts| && after[i] == starts[i];
    }
  }

  lemma StillIn(starts: seq<nat>, end: nat, i: nat)
    requires i in starts
    ensures i in starts + [end]
  {
  }

  /** The starts are exactly the places of the delimiter before the end, the first one at 0. */
  ghost predicate Marks(starts: seq<nat>, end: nat, fields: seq<Field>) {
    && fields != [] && end <= |fields| && |starts| > 0 && starts[0] == 0
    && (forall i, j :: 0 <= i < j < |starts| ==> starts[i] < starts[j])
    && (forall i :: 0 <= i < |starts| ==> starts[i] < end && fields[starts[i]].tag == fields[0].tag)
    && (forall i :: 0 <= i < end && fields[i].tag == fields[0].tag ==> i in starts)
  }

  function EndOf(starts: seq<nat>, end: nat, i: nat): nat
    requires i < |starts|
  {
    if i + 1 < |starts| then starts[i + 1] else end
  }

  lemma SliceIsEntry(starts: seq<nat>, end: nat, fields: seq<Field>, i: nat)
    requires Marks(starts, end, fields) && i < |starts|
    ensures starts[i] < EndOf(starts, end, i) <= |fields|
    ensures IsEntry(fields[starts[i]..EndOf(starts, end, i)], fields[0].tag)
  {
    var to := EndOf(starts, end, i);
    forall j | starts[i] < j < to ensures fields[j].tag != fields[0].tag {
      forall k | 0 <= k < |starts| ensures starts[k] != j {
        assert k < i ==> starts[k] < starts[i];
        assert k > i + 1 ==> starts[i + 1] < starts[k];
      }
      assert j !in starts;
    }
    var entry := fields[starts[i]..to];
    assert forall k :: 1 <= k < |entry| ==> entry[k] == fields[starts[i] + k];
  }

  method CutEntries(fields: seq<Field>, starts: seq<nat>, end: nat) returns (entries: seq<seq<Field>>)
    requires Marks(starts, end, fields)
    ensures Join(entries) == fields[..end] && |entries| == |starts|
    ensures forall k :: 0 <= k < |entries| ==> IsEntry(entries[k], fields[0].tag)
  {
    hide IsEntry, Marks;
    entries := [];
    var i := 0;
    FirstMark(starts, end, fields);
    while i < |starts|
      invariant 0 <= i <= |starts| && |entries| == i
      invariant i < |starts| ==> starts[i] <= |fields| && Join(entries) == fields[..starts[i]]
      invariant i == |starts| ==> end <= |fields| && Join(entries) == fields[..end]
      invariant forall k :: 0 <= k < i ==> IsEntry(entries[k], fields[0].tag)
    {
      SliceIsEntry(starts, end, fields, i);
      var to := EndOf(starts, end, i);
      var entry := fields[starts[i]..to];
      assert fields[..to] == fields[..starts[i]] + entry;
      assert (entries + [entry])[..i] == entries;
      entries := entries + [entry];
      i := i + 1;
    }
  }

  lemma FirstMark(starts: seq<nat>, end: nat, fields: seq<Field>)
    requires Marks(starts, end, fields)
    ensures fields != [] && |starts| > 0 && starts[0] == 0
  {
  }

  method ReadGroup(message: ParsedMessage, countTag: int, members: seq<int>) returns (r: GroupResult)
    ensures IsGroup(r, message.BodyFields(), countTag, members)
  {
    var fields := message.BodyFields();
    var at := TagAt(fields, countTag);
    if at == |fields| {
      return GroupFailed(NoGroupCount);
    }
    var declared := ToInt(fields[at].value);
    if declared.None? || declared.value < 0 {
      return GroupFailed(BadGroupCount);
    }
    if declared.value == 0 {
      return GroupRead(Group([], 0));
    }
    var rest := fields[at + 1..];
    if rest == [] || rest[0].tag !in members {
      return GroupRead(Group([], declared.value));
    }
    var starts, end := FindEntries(rest, members, declared.value);
    var entries := CutEntries(rest, starts, end);
    r := GroupRead(Group(entries, declared.value));
  }

  // ------------------------------------------------------------------------------ writing a group

  lemma {:induction false} JoinOfMembers(entries: seq<seq<Field>>, members: seq<int>)
    requires forall k :: 0 <= k < |entries| ==> AllMembers(entries[k], members)
    ensures AllMembers(Join(entries), members)
  {
    if entries != [] {
      JoinOfMembers(entries[..|entries| - 1], members);
      assert AllMembers(entries[|entries| - 1], members);
    }
  }

  lemma {:induction false} JoinStarts(entries: seq<seq<Field>>, delimiter: int)
    requires entries != [] && forall k :: 0 <= k < |entries| ==> IsEntry(entries[k], delimiter)
    ensures Join(entries) != [] && Join(entries)[0].tag == delimiter
  {
    var front, last := entries[..|entries| - 1], entries[|entries| - 1];
    assert IsEntry(last, delimiter);
    if front != [] {
      JoinStarts(front, delimiter);
    }
  }

  /** A group written behind its count, an empty one too, reads back entry by entry, whatever follows that is
      no member. */
  lemma WrittenGroupReads(before: seq<Field>, countTag: int, entries: seq<seq<Field>>, after: seq<Field>, members: seq<int>,
                          delimiter: int)
    requires forall i :: 0 <= i < |before| ==> before[i].tag != countTag
    requires |entries| < 0x8000_0000_0000_0000
    requires forall k :: 0 <= k < |entries| ==> IsEntry(entries[k], delimiter) && AllMembers(entries[k], members)
    requires after != [] ==> after[0].tag !in members
    ensures IsGroup(GroupRead(Group(entries, |entries|)),
                    before + [Field(countTag, Render(|entries|))] + (Join(entries) + after), countTag, members)
  {
    hide Tiles, Join, ToInt, Render, IsEntry, AllMembers;
    var rest := Join(entries) + after;
    var count := Field(countTag, Render(|entries|));
    var fields := before + [count] + rest;
    FirstAt(fields, countTag, |before|);
    assert fields[|before|] == count && fields[|before| + 1..] == rest;
    ToIntOfRender(|entries|);
    if entries != [] {
      WrittenTiles(entries, after, members, delimiter);
    }
  }

  lemma WrittenTiles(entries: seq<seq<Field>>, after: seq<Field>, members: seq<int>, delimiter: int)
    requires entries != []
    requires forall k :: 0 <= k < |entries| ==> IsEntry(entries[k], delimiter) && AllMembers(entries[k], members)
    requires after != [] ==> after[0].tag !in members
    ensures var rest := Join(entries) + after;
            rest != [] && rest[0].tag in members && Tiles(entries, rest, members, |entries|)
  {
    hide IsEntry, Join;
    var run := Join(entries);
    JoinStarts(entries, delimiter);
    JoinOfMembers(entries, members);
    assert run == (run + after)[..|run|];
  }

  lemma FirstAt(fields: seq<Field>, tag: int, at: nat)
    requires at < |fields| && fields[at].tag == tag && forall i :: 0 <= i < at ==> fields[i].tag != tag
    ensures TagAt(fields, tag) == at
  {
  }
}

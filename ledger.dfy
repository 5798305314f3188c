/**
 * The attendance ledger of the capture page: the ordered list of students
 * marked present in the current session, keyed by student id.
 * A student is appended only when no entry with the same id exists yet, so
 * the list never holds two entries for one id and keeps first-seen order.
 */
module Ledger {

  /** A roster member: an id and a display name. */
  datatype Student = Student(id: string, name: string)

  /** One row of the attendance list; `time` is the (opaque) clock string. */
  datatype Entry = Entry(id: string, name: string, time: string)

  /** What one detection did to the ledger. */
  datatype Detection = NotDetecting | Marked | Duplicate

  /** Some entry of `list` carries `id`. */
  predicate HasId(list: seq<Entry>, id: string)
  {
    exists k :: 0 <= k < |list| && list[k].id == id
  }

  /** No two entries of `list` share an id. */
  predicate UniqueIds(list: seq<Entry>)
  {
    forall j, k :: 0 <= j < k < |list| ==> list[j].id != list[k].id
  }

  /** Every entry of `list` is, by id and name, a member of `roster`. */
  predicate FromRoster(list: seq<Entry>, roster: seq<Student>)
  {
    forall k :: 0 <= k < |list| ==> IsRosterMember(list[k].id, list[k].name, roster)
  }

  predicate IsRosterMember(id: string, name: string, roster: seq<Student>)
  {
    exists j :: 0 <= j < |roster| && roster[j].id == id && roster[j].name == name
  }

  /** The set of ids in the list. */
  function Ids(list: seq<Entry>): set<string>
  {
    set k | 0 <= k < |list| :: list[k].id
  }

  /** The set of ids in the roster. */
  function RosterIds(roster: seq<Student>): set<string>
  {
    set j | 0 <= j < |roster| :: roster[j].id
  }

  /**
   * `findIndex(s => s.id === id)`: the first position whose entry carries
   * `id`, or -1 when there is none.
   */
  function FindIndex(list: seq<Entry>, id: string): (r: int)
    ensures -1 <= r < |list|
    ensures r == -1 <==> !HasId(list, id)
    ensures r >= 0 ==> list[r].id == id && forall k :: 0 <= k < r ==> list[k].id != id
  {
    if |list| == 0 then -1
    else if list[0].id == id then 0
    else
      var r := FindIndex(list[1..], id);
      assert forall k :: 1 <= k < |list| ==> list[k] == list[1..][k - 1];
      if r == -1 then -1 else r + 1
  }

  /**
   * The ledger update of one detection of student `s` at clock `time`:
   * copy the list, look the id up, and push a new entry when it is absent.
   */
  function Mark(list: seq<Entry>, s: Student, time: string): (r: seq<Entry>)
    ensures |list| <= |r| <= |list| + 1 && r[..|list|] == list
    ensures HasId(r, s.id)
    ensures |r| == |list| + 1 ==> r[|list|] == Entry(s.id, s.name, time)
    ensures UniqueIds(list) ==> UniqueIds(r)
  {
    if FindIndex(list, s.id) == -1 then
      var r := list + [Entry(s.id, s.name, time)];
      assert r[|list|].id == s.id;
      r
    else list
  }

  /** The outcome that a detection of `s` reports against `list`. */
  function MarkOutcome(list: seq<Entry>, s: Student): (d: Detection)
    ensures d == Marked || d == Duplicate
    ensures d == Duplicate <==> HasId(list, s.id)
  {
    if FindIndex(list, s.id) == -1 then Marked else Duplicate
  }

  /** A student missing from the ledger is appended as exactly one new last entry. */
  lemma MarkAppendsWhenAbsent(list: seq<Entry>, s: Student, time: string)
    requires !HasId(list, s.id)
    ensures Mark(list, s, time) == list + [Entry(s.id, s.name, time)]
    ensures |Mark(list, s, time)| == |list| + 1
    ensures MarkOutcome(list, s) == Marked
  {
  }

  /** A student already in the ledger leaves it as it was. */
  lemma MarkKeepsWhenPresent(list: seq<Entry>, s: Student, time: string)
    requires HasId(list, s.id)
    ensures Mark(list, s, time) == list
    ensures MarkOutcome(list, s) == Duplicate
  {
  }

  /** Recording the same student twice: accepted the first time, duplicate the second. */
  lemma MarkTwice(list: seq<Entry>, s: Student, t1: string, t2: string)
    requires !HasId(list, s.id)
    ensures MarkOutcome(list, s) == Marked
    ensures MarkOutcome(Mark(list, s, t1), s) == Duplicate
    ensures Mark(Mark(list, s, t1), s, t2) == Mark(list, s, t1)
  {
  }

  /** Marking a roster member keeps every entry a roster member. */
  lemma MarkFromRoster(list: seq<Entry>, roster: seq<Student>, i: nat, time: string)
    requires i < |roster|
    requires FromRoster(list, roster)
    ensures FromRoster(Mark(list, roster[i], time), roster)
  {
  }

  /** The ids of a list are those of all but its last entry, plus the last one's. */
  lemma IdsSnoc(list: seq<Entry>)
    requires |list| > 0
    ensures Ids(list) == Ids(list[..|list| - 1]) + {list[|list| - 1].id}
  {
  }

  /** With unique ids the number of entries is the number of distinct ids present. */
  lemma {:induction false} UniqueIdsCount(list: seq<Entry>)
    requires UniqueIds(list)
    ensures |Ids(list)| == |list|
  {
    if |list| > 0 {
      var init := list[..|list| - 1];
      assert UniqueIds(init) by {
        forall j, k | 0 <= j < k < |init| ensures init[j].id != init[k].id {
          assert init[j] == list[j] && init[k] == list[k];
        }
      }
      UniqueIdsCount(init);
      IdsSnoc(list);
    }
  }

  /** A roster names at most as many distinct ids as it has members. */
  lemma {:induction false} RosterIdsBound(roster: seq<Student>)
    ensures |RosterIds(roster)| <= |roster|
  {
    if |roster| > 0 {
      var init := roster[..|roster| - 1];
      RosterIdsBound(init);
      assert RosterIds(roster) <= RosterIds(init) + {roster[|roster| - 1].id} by {
        forall x | x in RosterIds(roster) ensures x in RosterIds(init) + {roster[|roster| - 1].id} {
          var j :| 0 <= j < |roster| && roster[j].id == x;
          if j < |roster| - 1 { assert init[j] == roster[j]; }
        }
      }
      SubsetCard(RosterIds(roster), RosterIds(init) + {roster[|roster| - 1].id});
    }
  }

  lemma {:induction false} SubsetCard(a: set<string>, b: set<string>)
    requires a <= b
    ensures |a| <= |b|
  {
    if a != {} {
      var x :| x in a;
      SubsetCard(a - {x}, b - {x});
    }
  }

  /**
   * A ledger of distinct roster members has at most as many entries as the
   * roster: the "Present" badge never exceeds the roster size.
   */
  lemma PresentAtMostRoster(list: seq<Entry>, roster: seq<Student>)
    requires UniqueIds(list) && FromRoster(list, roster)
    ensures |list| <= |roster|
  {
    UniqueIdsCount(list);
    RosterIdsBound(roster);
    assert Ids(list) <= RosterIds(roster) by {
      forall x | x in Ids(list) ensures x in RosterIds(roster) {
        var k :| 0 <= k < |list| && list[k].id == x;
        assert IsRosterMember(list[k].id, list[k].name, roster);
        var j :| 0 <= j < |roster| && roster[j].id == list[k].id && roster[j].name == list[k].name;
      }
    }
    SubsetCard(Ids(list), RosterIds(roster));
  }
}

/** The repair script fix-submitted-at.js: for every stored submission whose
    quiz still exists and lists the submission's student, the student's first
    roster entry is stamped with `submittedAt` when it has no stamp yet. The
    database is the map of quizzes passed in and returned. */
module FixSubmittedAt {
  import opened Common
  import opened Domain

  /** The submission's target: the quiz and the position of the first roster
      entry of its student, when both exist. */
  function Target(quizzes: map<Id, Quiz>, s: Submission): (r: Option<nat>)
    ensures r.Some? ==> s.quiz in quizzes && r == FirstRosterIndex(quizzes[s.quiz].students, s.student)
    ensures r.None? ==> s.quiz !in quizzes || !OnRoster(quizzes[s.quiz].students, s.student)
  {
    if s.quiz !in quizzes then None else FirstRosterIndex(quizzes[s.quiz].students, s.student)
  }

  /** The target entry already carries a stamp. */
  predicate Stamped(quizzes: map<Id, Quiz>, s: Submission) {
    var t := Target(quizzes, s);
    t.Some? ==> quizzes[s.quiz].students[t.value].submittedAt.Some?
  }

  /** The stamp written for a submission: its own `submittedAt`, or now. */
  function StampFor(s: Submission, now: nat): nat {
    if s.submittedAt.Some? then s.submittedAt.value else now
  }

  /** One pass of the loop body. */
  function FixOne(quizzes: map<Id, Quiz>, s: Submission, now: nat): (r: map<Id, Quiz>)
    ensures Stamped(r, s)
    ensures Stamped(quizzes, s) ==> r == quizzes
    ensures !Stamped(quizzes, s) ==> var k := Target(quizzes, s).value; var q := quizzes[s.quiz];
      r == quizzes[s.quiz := q.(students := q.students[k := q.students[k].(submittedAt := Some(StampFor(s, now)))])]
  {
    var t := Target(quizzes, s);
    if t.None? then quizzes
    else
      var q := quizzes[s.quiz];
      var k := t.value;
      if q.students[k].submittedAt.Some? then quizzes
      else
        var r := quizzes[s.quiz := q.(students := q.students[k := q.students[k].(submittedAt := Some(StampFor(s, now)))])];
        assert r[s.quiz].students[k].student == s.student;
        SameStudentsSameIndex(q.students, r[s.quiz].students, s.student);
        r
  }

  /** The state after the loop has handled `subs`, in order. */
  function FixAll(quizzes: map<Id, Quiz>, subs: seq<Submission>, now: nat): map<Id, Quiz>
  {
    if subs == [] then quizzes
    else FixOne(FixAll(quizzes, subs[..|subs| - 1], now), subs[|subs| - 1], now)
  }

  /** `fixSubmittedAt`: the loop over all submissions. */
  method FixSubmittedAt(quizzes: map<Id, Quiz>, submissions: seq<Submission>, now: nat) returns (fixed: map<Id, Quiz>)
    ensures fixed == FixAll(quizzes, submissions, now)
  {
    fixed := quizzes;
    for i := 0 to |submissions|
      invariant fixed == FixAll(quizzes, submissions[..i], now)
    {
      assert submissions[..i + 1][..i] == submissions[..i];
      var s := submissions[i];
      if s.quiz in fixed {
        var q := fixed[s.quiz];
        var studentIndex := FirstRosterIndex(q.students, s.student);
        if studentIndex.Some? {
          var k := studentIndex.value;
          if q.students[k].submittedAt.None? {
            fixed := fixed[s.quiz := q.(students := q.students[k := q.students[k].(submittedAt := Some(StampFor(s, now)))])];
          }
        }
      }
    }
    assert submissions[..|submissions|] == submissions;
  }

  /** Rosters with the same students at the same positions. */
  predicate SameStudents(a: seq<RosterEntry>, b: seq<RosterEntry>) {
    |a| == |b| && forall i :: 0 <= i < |a| ==> a[i].student == b[i].student
  }

  lemma {:induction false} SameStudentsSameIndex(a: seq<RosterEntry>, b: seq<RosterEntry>, user: Id)
    requires SameStudents(a, b)
    ensures FirstRosterIndex(a, user) == FirstRosterIndex(b, user)
  {
    if a != [] {
      assert SameStudents(a[1..], b[1..]) by {
        forall i | 0 <= i < |a| - 1
          ensures a[1..][i].student == b[1..][i].student
        {
          assert a[1..][i] == a[i + 1] && b[1..][i] == b[i + 1];
        }
      }
      SameStudentsSameIndex(a[1..], b[1..], user);
    }
  }

  /** `after` only fills in stamps that `before` lacked: the same quizzes, each
      unchanged but for its roster, whose students stay the same and whose
      stamped entries stay exactly as they were. */
  predicate OnlyFills(before: map<Id, Quiz>, after: map<Id, Quiz>) {
    before.Keys == after.Keys
    && forall id :: id in before ==>
      after[id] == before[id].(students := after[id].students)
      && SameStudents(before[id].students, after[id].students)
      && forall i :: 0 <= i < |before[id].students| && before[id].students[i].submittedAt.Some? ==>
           after[id].students[i] == before[id].students[i]
  }

  lemma OnlyFillsTransitive(a: map<Id, Quiz>, b: map<Id, Quiz>, c: map<Id, Quiz>)
    requires OnlyFills(a, b) && OnlyFills(b, c)
    ensures OnlyFills(a, c)
  {
    forall id | id in a
      ensures SameStudents(a[id].students, c[id].students)
    {
      assert SameStudents(a[id].students, b[id].students);
      assert SameStudents(b[id].students, c[id].students);
    }
  }

  lemma FixOneOnlyFills(quizzes: map<Id, Quiz>, s: Submission, now: nat)
    ensures OnlyFills(quizzes, FixOne(quizzes, s, now))
  {
  }

  /** The repair never overwrites an existing stamp, never touches anything but
      stamps, and keeps every quiz. */
  lemma {:induction false} FixAllOnlyFills(quizzes: map<Id, Quiz>, subs: seq<Submission>, now: nat)
    ensures OnlyFills(quizzes, FixAll(quizzes, subs, now))
  {
    if subs != [] {
      var mid := FixAll(quizzes, subs[..|subs| - 1], now);
      FixAllOnlyFills(quizzes, subs[..|subs| - 1], now);
      FixOneOnlyFills(mid, subs[|subs| - 1], now);
      OnlyFillsTransitive(quizzes, mid, FixAll(quizzes, subs, now));
    }
  }

  /** Filling stamps keeps each submission's target, and keeps it stamped. */
  lemma OnlyFillsKeepsStamped(before: map<Id, Quiz>, after: map<Id, Quiz>, s: Submission)
    requires OnlyFills(before, after)
    ensures Target(after, s) == Target(before, s)
    ensures Stamped(before, s) ==> Stamped(after, s)
  {
    if s.quiz in before {
      SameStudentsSameIndex(before[s.quiz].students, after[s.quiz].students, s.student);
    }
  }

  /** After the repair, every submission whose quiz exists and lists its student
      has that student's first roster entry stamped. */
  lemma {:induction false} FixAllStampsEveryTarget(quizzes: map<Id, Quiz>, subs: seq<Submission>, now: nat)
    ensures forall j :: 0 <= j < |subs| ==> Stamped(FixAll(quizzes, subs, now), subs[j])
  {
    if subs != [] {
      var n := |subs| - 1;
      var mid := FixAll(quizzes, subs[..n], now);
      var fin := FixAll(quizzes, subs, now);
      FixAllStampsEveryTarget(quizzes, subs[..n], now);
      FixOneOnlyFills(mid, subs[n], now);
      forall j | 0 <= j < |subs|
        ensures Stamped(fin, subs[j])
      {
        if j < n {
          assert subs[..n][j] == subs[j];
          OnlyFillsKeepsStamped(mid, fin, subs[j]);
        }
      }
    }
  }

  /** A state in which every target is stamped is left alone. */
  lemma {:induction false} FixAllOfStamped(quizzes: map<Id, Quiz>, subs: seq<Submission>, now: nat)
    requires forall j :: 0 <= j < |subs| ==> Stamped(quizzes, subs[j])
    ensures FixAll(quizzes, subs, now) == quizzes
  {
    if subs != [] {
      var n := |subs| - 1;
      assert forall j :: 0 <= j < n ==> subs[..n][j] == subs[j];
      FixAllOfStamped(quizzes, subs[..n], now);
    }
  }

  /** Running the repair a second time changes nothing. */
  lemma FixAllIdempotent(quizzes: map<Id, Quiz>, subs: seq<Submission>, now: nat, later: nat)
    ensures FixAll(FixAll(quizzes, subs, now), subs, later) == FixAll(quizzes, subs, now)
  {
    FixAllStampsEveryTarget(quizzes, subs, now);
    FixAllOfStamped(FixAll(quizzes, subs, now), subs, later);
  }
}

/** The student picker of client/src/components/common/StudentSelector.jsx: the
    filter that keeps connections to one student, and the selection updates
    (toggle, single choice, select or deselect all). The connection list is
    the already fetched response; the fetch itself is not modelled. */
module StudentSelector {
  import opened Common

  /** A populated side of a connection. */
  datatype Party = Party(id: Id, role: Role)

  /** A connection as `/connections/my-connections` returns it. */
  datatype PopulatedConnection = PopulatedConnection(sender: Party, receiver: Party, status: string)

  /** Accepted, and exactly one side is a student. */
  predicate IsStudentConnection(c: PopulatedConnection) {
    && c.status == "accepted"
    && ((c.sender.role == Student && c.receiver.role != Student)
        || (c.receiver.role == Student && c.sender.role != Student))
  }

  /** The connections the picker lists, in the response's order. */
  function StudentConnections(conns: seq<PopulatedConnection>): (r: seq<PopulatedConnection>)
    ensures |r| <= |conns|
    ensures forall c :: c in r <==> c in conns && IsStudentConnection(c)
  {
    Keep(conns, IsStudentConnection)
  }

  /** `getStudentInfo`: the sender when the sender is a student, else the receiver. */
  function StudentOf(c: PopulatedConnection): (r: Party)
    ensures c.sender.role == Student ==> r == c.sender
    ensures c.sender.role != Student ==> r == c.receiver
  {
    if c.sender.role == Student then c.sender else c.receiver
  }

  /** Every listed connection names a student, and the other side is not one. */
  lemma ListedStudentIsStudent(conns: seq<PopulatedConnection>, c: PopulatedConnection)
    requires c in StudentConnections(conns)
    ensures StudentOf(c).role == Student
    ensures StudentOf(c) == c.sender ==> c.receiver.role != Student
    ensures StudentOf(c) == c.receiver ==> c.sender.role != Student
  {
  }

  /** The student ids of the listed connections, in order. */
  function StudentIds(conns: seq<PopulatedConnection>): (r: seq<Id>)
    ensures |r| == |conns|
    ensures forall i :: 0 <= i < |conns| ==> r[i] == StudentOf(conns[i]).id
  {
    seq(|conns|, i requires 0 <= i < |conns| => StudentOf(conns[i]).id)
  }

  /** `handleStudentToggle` in multiple mode: removes the id if it is selected,
      appends it otherwise. */
  function Toggle(selected: seq<Id>, id: Id): (r: seq<Id>)
    ensures id in selected ==> id !in r && (forall x :: x != id ==> (x in r <==> x in selected))
    ensures id !in selected ==> r == selected + [id]
  {
    if id in selected then Without(selected, id) else selected + [id]
  }

  /** `handleStudentToggle` in single mode: the selection is exactly that student. */
  function Choose(id: Id): (r: seq<Id>)
    ensures |r| == 1 && r[0] == id
  {
    [id]
  }

  /** Two toggles of the same student restore the selection of every student;
      starting from a selection without it, they restore the selection itself. */
  lemma ToggleTwice(selected: seq<Id>, id: Id)
    ensures forall x :: x in Toggle(Toggle(selected, id), id) <==> x in selected
    ensures id !in selected ==> Toggle(Toggle(selected, id), id) == selected
  {
    if id !in selected {
      WithoutAppend(selected, [id], id);
      WithoutAbsent(selected, id);
      assert Without([id], id) == [];
    }
  }

  /** `handleSelectAll`: deselects all when the selection is as long as the
      list, otherwise selects every listed student. */
  function SelectAll(selected: seq<Id>, conns: seq<PopulatedConnection>): (r: seq<Id>)
    ensures |selected| == |conns| ==> r == []
    ensures |selected| != |conns| ==> r == StudentIds(conns)
  {
    if |selected| == |conns| then [] else StudentIds(conns)
  }

  /** The selection the picker keeps: no repeats, only listed students, and
      each listed student listed once. */
  predicate Consistent(selected: seq<Id>, conns: seq<PopulatedConnection>) {
    && Distinct(selected)
    && (forall x :: x in selected ==> x in StudentIds(conns))
    && Distinct(StudentIds(conns))
  }

  /** For a consistent selection, comparing lengths, as the select-all button
      does, is the same as asking whether every listed student is selected. */
  lemma LengthTestMeansAllSelected(selected: seq<Id>, conns: seq<PopulatedConnection>)
    requires Consistent(selected, conns)
    ensures |selected| == |conns| <==> forall i :: 0 <= i < |conns| ==> StudentOf(conns[i]).id in selected
  {
    var ids := StudentIds(conns);
    var a := set x | x in selected;
    var b := set x | x in ids;
    DistinctCardinality(selected);
    DistinctCardinality(ids);
    assert a <= b;
    if |selected| == |conns| {
      SubsetOfSameSize(a, b);
      forall i | 0 <= i < |conns| ensures StudentOf(conns[i]).id in selected {
        assert ids[i] in b;
      }
    }
    if forall i :: 0 <= i < |conns| ==> StudentOf(conns[i]).id in selected {
      forall x | x in b ensures x in a {
        var i :| 0 <= i < |ids| && ids[i] == x;
      }
      assert a == b;
    }
  }

  /** Toggling a listed student and selecting all keep the selection consistent. */
  lemma UpdatesKeepConsistent(selected: seq<Id>, conns: seq<PopulatedConnection>, i: nat)
    requires Consistent(selected, conns) && i < |conns|
    ensures Consistent(Toggle(selected, StudentOf(conns[i]).id), conns)
    ensures Consistent(SelectAll(selected, conns), conns)
  {
    var id := StudentOf(conns[i]).id;
    var ids := StudentIds(conns);
    assert id == ids[i];
    if id in selected {
      WithoutKeepsDistinct(selected, id);
    } else {
      var r := selected + [id];
      forall p, q | 0 <= p < q < |r| ensures r[p] != r[q] {
        if q == |selected| {
          assert r[p] in selected;
        }
      }
    }
  }

  lemma {:induction false} WithoutKeepsDistinct(xs: seq<Id>, o: Id)
    requires Distinct(xs)
    ensures Distinct(Without(xs, o))
    decreases |xs|
  {
    if xs != [] {
      WithoutKeepsDistinct(xs[1..], o);
      var rest := Without(xs[1..], o);
      assert xs[0] !in xs[1..];
      assert xs[0] !in rest;
    }
  }
}

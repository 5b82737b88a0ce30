/**
 * The tutor's student preview (GET app/api/tutor/students/preview): the
 * stats of up to 200 students, most recently active first, best average
 * next, cut to the first five.
 */
module TutorPreview {
  import opened Common
  import opened Db
  import opened TutorStudents

  datatype PreviewReply =
    | Preview(students: seq<StudentStat>)
    | Unauthorized
    | Forbidden

  /** take: 200 */
  const MaxConsidered := 200

  /** The preview's list before the cut: the considered students sorted most recent first. */
  function PreviewOrder(students: seq<StudentRow>): (r: seq<StudentStat>)
    ensures |r| == |Considered(students)|
  {
    SortStats(StatsOf(Considered(students)), MostRecent)
  }

  /** The students the preview reads: the first 200 loaded. */
  function Considered(students: seq<StudentRow>): (r: seq<StudentRow>)
    ensures |r| <= MaxConsidered
    ensures |r| <= |students| && r == students[..|r|]
    ensures |students| >= MaxConsidered ==> |r| == MaxConsidered
  {
    if |students| <= MaxConsidered then students else students[..MaxConsidered]
  }

  /** The order before the cut is most recent first, and it holds the stats of exactly the considered students. */
  lemma PreviewOrderSorted(students: seq<StudentRow>)
    ensures Sorted(PreviewOrder(students), MostRecent)
    ensures multiset(PreviewOrder(students)) == multiset(StatsOf(Considered(students)))
  {
  }

  /** The reply for a staff user: computed.slice(0, 5). */
  function PreviewOf(students: seq<StudentRow>): (r: seq<StudentStat>)
    ensures |r| <= 5
    ensures |r| <= |PreviewOrder(students)| && r == PreviewOrder(students)[..|r|]
    ensures |PreviewOrder(students)| >= 5 ==> |r| == 5
  {
    var sorted := PreviewOrder(students);
    SliceFromStart(sorted, 5);
    JsSlice(sorted, Some(0), Some(5))
  }

  /** GET /api/tutor/students/preview: the role checks, the per-student loop, the sort and the cut. */
  method StudentsPreview(user: Option<Role>, students: seq<StudentRow>) returns (reply: PreviewReply)
    ensures reply.Unauthorized? <==> user.None?
    ensures reply.Forbidden? <==> user.Some? && !IsStaff(user.value)
    ensures reply.Preview? ==> reply.students == PreviewOf(students)
  {
    if user.None? {
      return PreviewReply.Unauthorized;
    }
    if !IsStaff(user.value) {
      return PreviewReply.Forbidden;
    }
    var computed := ComputeStats(Considered(students));
    var sorted := SortStats(computed, MostRecent);
    reply := Preview(JsSlice(sorted, Some(0), Some(5)));
  }

  /**
   * No considered student left out of the preview comes before one shown:
   * the five shown are the most recently active, ties broken by the
   * higher best average, a missing one lowest.
   */
  lemma ShownBeforeHidden(students: seq<StudentRow>, i: nat, j: nat)
    requires i < |PreviewOf(students)| && |PreviewOf(students)| <= j < |PreviewOrder(students)|
    ensures !Precedes(PreviewOrder(students)[j], PreviewOf(students)[i], MostRecent)
    ensures LastTime(PreviewOrder(students)[j]) <= LastTime(PreviewOf(students)[i])
  {
    var sorted := PreviewOrder(students);
    PreviewOrderSorted(students);
    assert PreviewOf(students)[i] == sorted[i];
  }

  /** The first row shown has the latest activity of all considered students. */
  lemma FirstIsMostRecent(students: seq<StudentRow>, x: StudentStat)
    requires x in PreviewOrder(students)
    ensures |PreviewOf(students)| > 0
    ensures LastTime(x) <= LastTime(PreviewOf(students)[0])
  {
    var sorted := PreviewOrder(students);
    PreviewOrderSorted(students);
    var j :| 0 <= j < |sorted| && sorted[j] == x;
    assert PreviewOf(students)[0] == sorted[0];
    if j > 0 {
      assert !Precedes(sorted[j], sorted[0], MostRecent);
    }
  }
}

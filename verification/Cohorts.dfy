/** Grouping the accepted offerings of one course into one cohort. */
module Cohorts {
  import opened Prelude
  import opened Checks

  ghost predicate DistinctIds(os: seq<Offering>) {
    forall i, j :: 0 <= i < j < |os| ==> os[i].id != os[j].id
  }

  lemma DistinctFront(front: seq<Offering>, last: Offering)
    requires DistinctIds(front + [last])
    ensures DistinctIds(front) && forall o :: o in front ==> o.id != last.id
  {
    var os := front + [last];
    assert forall i :: 0 <= i < |front| ==> os[i] == front[i] && os[i].id != os[|front|].id;
  }

  lemma DistinctAdd(s: seq<Offering>, last: Offering)
    requires DistinctIds(s) && forall o :: o in s ==> o.id != last.id
    ensures DistinctIds(s + [last])
  {
    assert forall i :: 0 <= i < |s| ==> s[i] in s;
  }

  ghost predicate Ascending(s: seq<int>) {
    forall i, j :: 0 <= i < j < |s| ==> s[i] < s[j]
  }

  /** The course ids that occur, in order of first appearance. */
  function CourseIds(os: seq<Offering>): seq<int> {
    if os == [] then []
    else
      var before := CourseIds(os[..|os| - 1]);
      if os[|os| - 1].courseId in before then before else before + [os[|os| - 1].courseId]
  }

  function OfCourse(os: seq<Offering>, courseId: int): seq<Offering> {
    if os == [] then []
    else
      var last := os[|os| - 1];
      OfCourse(os[..|os| - 1], courseId) + (if last.courseId == courseId then [last] else [])
  }

  lemma {:induction false} OfCourseMembers(os: seq<Offering>, courseId: int)
    ensures forall o :: o in OfCourse(os, courseId) <==> o in os && o.courseId == courseId
    ensures DistinctIds(os) ==> DistinctIds(OfCourse(os, courseId))
  {
    if os != [] {
      var front, last := os[..|os| - 1], os[|os| - 1];
      OfCourseMembers(front, courseId);
      assert os == front + [last];
      if DistinctIds(os) {
        DistinctFront(front, last);
        DistinctAdd(OfCourse(front, courseId), last);
      }
      hide DistinctIds;
    }
  }

  lemma {:induction false} CourseIdsMembers(os: seq<Offering>)
    ensures forall o :: o in os ==> o.courseId in CourseIds(os)
    ensures forall i :: 0 <= i < |CourseIds(os)| ==> OfCourse(os, CourseIds(os)[i]) != []
    ensures NoDup(CourseIds(os))
  {
    if os != [] {
      var front, last := os[..|os| - 1], os[|os| - 1];
      CourseIdsMembers(front);
      assert os == front + [last];
      forall i | 0 <= i < |CourseIds(os)| ensures OfCourse(os, CourseIds(os)[i]) != [] {
        if i < |CourseIds(front)| { assert CourseIds(os)[i] == CourseIds(front)[i]; }
      }
    }
  }

  // ---------------------------------------------------------------- sorting

  /** Sorting distinct numbers: the same numbers, strictly ascending. */
  method SortAscending(s: seq<int>) returns (r: seq<int>)
    ensures |r| == |s| && (forall x :: x in r <==> x in s)
    ensures NoDup(s) ==> Ascending(r)
  {
    r := StableSort(s, (x: int) => x);
    StableSortSorts(s, (x: int) => x);
    SortedFacts(s, r);
  }

  lemma SortedFacts(s: seq<int>, r: seq<int>)
    requires multiset(r) == multiset(s) && SortedBy(r, (x: int) => x)
    ensures |r| == |s| && (forall x :: x in r <==> x in s)
    ensures NoDup(s) ==> Ascending(r)
  {
    SameMultiset(s, r);
    forall x ensures x in r <==> x in s {
      assert x in Elements(r) <==> x in Elements(s);
    }
  }

  function IdKey(): Offering -> int { (o: Offering) => o.id }

  /** siblings.sort((a, b) => a.id - b.id) */
  method SortById(s: seq<Offering>) returns (r: seq<Offering>)
    requires DistinctIds(s)
    ensures |r| == |s| && (forall o :: o in r <==> o in s)
    ensures Ascending(OfferingIds(r))
  {
    r := StableSort(s, IdKey());
    StableSortSorts(s, IdKey());
    SortedOfferings(s, r);
  }

  function OfferingIds(os: seq<Offering>): (r: seq<int>)
    ensures |r| == |os| && forall i :: 0 <= i < |r| ==> r[i] == os[i].id
  {
    seq(|os|, i requires 0 <= i < |os| => os[i].id)
  }

  lemma SortedOfferings(s: seq<Offering>, r: seq<Offering>)
    requires multiset(r) == multiset(s) && SortedBy(r, IdKey()) && DistinctIds(s)
    ensures |r| == |s| && (forall o :: o in r <==> o in s)
    ensures Ascending(OfferingIds(r))
  {
    SameMultiset(s, r);
    forall o ensures o in r <==> o in s {
      assert o in Elements(r) <==> o in Elements(s);
    }
    assert NoDup(s);
    forall i, j | 0 <= i < j < |r| ensures r[i].id < r[j].id {
      assert IdKey()(r[i]) <= IdKey()(r[j]);
      assert r[i] in s && r[j] in s && r[i] != r[j];
    }
  }

  // ---------------------------------------------------------------- cohorts

  /** The cohort of one course: all its offerings, ascending by id. */
  ghost predicate IsCohort(siblings: seq<Offering>, os: seq<Offering>, courseId: int) {
    && siblings != []
    && Ascending(OfferingIds(siblings))
    && forall o :: o in siblings <==> o in os && o.courseId == courseId
  }

  ghost predicate CohortsOf(cohorts: seq<seq<Offering>>, os: seq<Offering>) {
    |cohorts| == |CourseIds(os)| && forall i :: 0 <= i < |cohorts| ==> IsCohort(cohorts[i], os, CourseIds(os)[i])
  }

  ghost predicate Bucketed(order: seq<int>, groups: map<int, seq<Offering>>, os: seq<Offering>) {
    && order == CourseIds(os)
    && (forall k :: k in groups <==> k in order)
    && (forall k :: OfCourse(os, k) == if k in groups then groups[k] else [])
  }

  lemma BucketStep(order: seq<int>, groups: map<int, seq<Offering>>, os: seq<Offering>, o: Offering)
    requires Bucketed(order, groups, os)
    ensures Bucketed(if o.courseId in groups then order else order + [o.courseId],
                     groups[o.courseId := (if o.courseId in groups then groups[o.courseId] else []) + [o]], os + [o])
  {
    hide CourseIds, OfCourse;
    var groups' := groups[o.courseId := (if o.courseId in groups then groups[o.courseId] else []) + [o]];
    CoursesSnoc(os, o);
    forall k ensures OfCourse(os + [o], k) == if k in groups' then groups'[k] else [] { OfCourseSnoc(os, o, k); }
  }

  lemma CoursesSnoc(os: seq<Offering>, o: Offering)
    ensures CourseIds(os + [o]) == if o.courseId in CourseIds(os) then CourseIds(os) else CourseIds(os) + [o.courseId]
  {
    assert (os + [o])[..|os|] == os;
  }

  lemma OfCourseSnoc(os: seq<Offering>, o: Offering, k: int)
    ensures OfCourse(os + [o], k) == OfCourse(os, k) + if o.courseId == k then [o] else []
  {
    assert (os + [o])[..|os|] == os;
  }

  lemma NothingBucketed()
    ensures Bucketed([], map[], [])
  {
  }

  method BucketByCourse(os: seq<Offering>) returns (order: seq<int>, groups: map<int, seq<Offering>>)
    ensures Bucketed(order, groups, os)
  {
    order, groups := [], map[];
    NothingBucketed();
    hide Bucketed;
    for i := 0 to |os|
      invariant Bucketed(order, groups, os[..i])
    {
      var o := os[i];
      BucketStep(order, groups, os[..i], o);
      assert os[..i] + [o] == os[..i + 1];
      if o.courseId !in groups {
        order := order + [o.courseId];
      }
      groups := groups[o.courseId := (if o.courseId in groups then groups[o.courseId] else []) + [o]];
    }
    assert os[..|os|] == os;
  }

  /** The cohorts in the order in which their courses first appear. */
  method GroupCohorts(os: seq<Offering>) returns (cohorts: seq<seq<Offering>>)
    requires DistinctIds(os)
    ensures CohortsOf(cohorts, os)
  {
    hide CourseIds, OfCourse, DistinctIds;
    var order, groups := BucketByCourse(os);
    CourseIdsMembers(os);
    cohorts := [];
    for i := 0 to |order|
      invariant |cohorts| == i && forall j :: 0 <= j < i ==> IsCohort(cohorts[j], os, order[j])
    {
      assert order[i] in groups;
      OfCourseMembers(os, order[i]);
      var siblings := SortById(groups[order[i]]);
      cohorts := cohorts + [siblings];
    }
  }

  /** Every offering is in exactly one cohort, the one of its course. */
  lemma CohortsPartition(cohorts: seq<seq<Offering>>, os: seq<Offering>)
    requires CohortsOf(cohorts, os)
    ensures forall o :: o in os ==> exists i :: 0 <= i < |cohorts| && o in cohorts[i]
    ensures forall i, o :: 0 <= i < |cohorts| && o in cohorts[i] ==> o in os
    ensures forall i, j, o :: 0 <= i < j < |cohorts| && o in cohorts[i] ==> o !in cohorts[j]
  {
    CourseIdsMembers(os);
    hide CourseIds, OfCourse;
    var keys := CourseIds(os);
    forall o | o in os ensures exists i :: 0 <= i < |cohorts| && o in cohorts[i] {
      var k := o.courseId;
      assert k in keys;
      var i :| 0 <= i < |keys| && keys[i] == k;
      assert IsCohort(cohorts[i], os, keys[i]);
      assert o in cohorts[i];
    }
    forall i, j, o | 0 <= i < j < |cohorts| && o in cohorts[i] ensures o !in cohorts[j] {
      assert IsCohort(cohorts[i], os, keys[i]) && IsCohort(cohorts[j], os, keys[j]);
      assert keys[i] != keys[j];
    }
  }
}

/** The candidate record that the validator hands to the structural analysis and to the search. */
module Candidates {
  import opened Prelude

  /** One cohort to schedule. An absent possibleRoomIds list is read as empty, as every reader does. */
  datatype Candidate = Candidate(
    offeringId: int,
    courseId: int,
    roomId: Option<int>,
    lecturerIds: seq<int>,
    effectiveStudentCount: int,
    parallelSessionCount: nat,
    sessionDuration: int,
    possibleTimeSlotIds: seq<int>,
    possibleRoomIds: seq<int>,
    isFixedRoom: bool,
    siblingOfferingIds: seq<int>,
    lecturerPool: seq<int>,
    siblingLecturerGroups: seq<seq<int>>,
    longestContiguousRun: int,
    fragmentationRequired: bool)
  {
    predicate MultiSibling() { |siblingOfferingIds| > 1 }
  }

  ghost predicate DistinctOfferings(cs: seq<Candidate>) {
    forall i, j :: 0 <= i < j < |cs| ==> cs[i].offeringId != cs[j].offeringId
  }

  /** candidates.reduce((sum, c) => sum + c.parallelSessionCount, 0) */
  function TotalSessions(cs: seq<Candidate>): nat {
    if cs == [] then 0 else TotalSessions(cs[..|cs| - 1]) + cs[|cs| - 1].parallelSessionCount
  }
}

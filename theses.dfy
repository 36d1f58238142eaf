/** The thesis status workflow: the check a thesis form makes of the number
    of assigned students, the status a new or edited thesis is saved with,
    and the automatic acceptance once enough board members vote for it.

    Students are modelled by their ids, times by an integer clock reading
    passed in by the caller. */
module Theses {
  import opened Common

  /** The statuses the workflow refers to; `OtherStatus` stands for any
      other member of the status enumeration. */
  datatype ThesisStatus =
    | BeingEvaluated
    | ReturnedForCorrections
    | Accepted
    | InProgress
    | OtherStatus(code: nat)

  datatype ThesisVote = NoVote | VoteAccepted | VoteRejected

  /** A bound thesis form: the cleaned values, the names of the fields that
      differ from the initial values (`changed_data`) and the keys of the raw
      submitted data. */
  datatype Submission = Submission(
    status: ThesisStatus,
    students: seq<int>,
    maxStudents: int,
    changed: set<string>,
    keys: set<string>)

  /** The stored database row of a thesis. */
  datatype ThesisRow = ThesisRow(status: ThesisStatus, students: seq<int>, maxStudents: int, added: int, modified: int)

  /** `ThesisFormBase.clean`: too many students is an error, but only when
      the students or the maximum were changed by the submission. */
  function Clean(s: Submission): (ok: bool)
    ensures |s.students| <= s.maxStudents ==> ok
    ensures "students" !in s.changed && "max_number_of_students" !in s.changed ==> ok
    ensures ("students" in s.changed || "max_number_of_students" in s.changed) && |s.students| > s.maxStudents ==> !ok
  {
    !(("students" in s.changed || "max_number_of_students" in s.changed) && |s.students| > s.maxStudents)
  }

  /** The status `ThesisForm.save` gives a new thesis. */
  function NewStatus(isStaff: bool, submitted: ThesisStatus): (st: ThesisStatus)
    ensures !isStaff ==> st == BeingEvaluated
    ensures isStaff ==> st == submitted
  {
    if isStaff then submitted else BeingEvaluated
  }

  /** The status `EditThesisForm.save` gives an edited thesis. `captured` is
      the status the thesis had when the form was built; `studentsKey` says
      whether the raw submitted data has a "students" key. */
  function EditedStatus(isStaff: bool, captured: ThesisStatus, submitted: ThesisStatus, studentsKey: bool): (st: ThesisStatus)
    ensures isStaff ==> st == submitted
    ensures !isStaff && captured == ReturnedForCorrections ==> st == BeingEvaluated
    ensures !isStaff && (captured == Accepted || captured == InProgress) ==>
      st == (if studentsKey then InProgress else Accepted)
    ensures !isStaff && captured != ReturnedForCorrections && captured != Accepted && captured != InProgress ==>
      st == captured
  {
    if isStaff then submitted
    else if captured == ReturnedForCorrections then BeingEvaluated
    else if captured == Accepted && studentsKey then InProgress
    else if captured == InProgress && !studentsKey then Accepted
    else captured
  }

  /** The status `auto_accept` leaves: a thesis with enough accepting votes
      is accepted, or in progress when it already has students. */
  function AutoAcceptedStatus(status: ThesisStatus, vote: ThesisVote, acceptedVotes: nat, required: nat, noStudents: bool): (st: ThesisStatus)
    ensures vote == VoteAccepted && acceptedVotes >= required ==> st == (if noStudents then Accepted else InProgress)
    ensures vote != VoteAccepted || acceptedVotes < required ==> st == status
  {
    if vote == VoteAccepted && acceptedVotes >= required then
      if noStudents then Accepted else InProgress
    else status
  }

  class Thesis {
    var status: ThesisStatus
    var students: seq<int>
    var maxStudents: int
    var added: int
    var modified: int
    /** The row last written to the database, if any. */
    var stored: Option<ThesisRow>

    /** A thesis instance not yet saved. */
    constructor (status: ThesisStatus, students: seq<int>, maxStudents: int)
      ensures this.status == status && this.students == students && this.maxStudents == maxStudents
      ensures added == 0 && modified == 0 && stored == None
    {
      this.status := status;
      this.students := students;
      this.maxStudents := maxStudents;
      added := 0;
      modified := 0;
      stored := None;
    }

    function Row(): ThesisRow
      reads this
    {
      ThesisRow(status, students, maxStudents, added, modified)
    }

    /** `instance.save()`. */
    method Save()
      modifies this
      ensures stored == Some(Row())
      ensures status == old(status) && students == old(students) && maxStudents == old(maxStudents)
      ensures added == old(added) && modified == old(modified)
    {
      stored := Some(Row());
    }
  }

  /** The form for proposing a new thesis. */
  class ThesisForm {
    const isStaff: bool
    const submission: Submission

    constructor (isStaff: bool, submission: Submission)
      ensures this.isStaff == isStaff && this.submission == submission
    {
      this.isStaff := isStaff;
      this.submission := submission;
    }

    /** `ThesisForm.save`. A form that does not validate raises ValueError.
        Otherwise the thesis is created with its time of addition and the
        status `NewStatus` gives, and it is stored whatever `commit` says. */
    method Save(commit: bool, now: int) returns (r: Result<Thesis>)
      ensures r.Err? <==> !Clean(submission)
      ensures r.Err? ==> r.error == ValueError
      ensures r.Ok? ==> fresh(r.value)
      ensures r.Ok? ==> r.value.status == NewStatus(isStaff, submission.status)
      ensures r.Ok? ==> r.value.students == submission.students && r.value.maxStudents == submission.maxStudents
      ensures r.Ok? ==> r.value.added == now && r.value.stored == Some(r.value.Row())
    {
      if !Clean(submission) {
        return Err(ValueError);
      }
      var instance := new Thesis(submission.status, [], submission.maxStudents);
      instance.added := now;
      if !isStaff {
        instance.status := BeingEvaluated;
      }
      instance.students := submission.students;
      instance.Save();
      r := Ok(instance);
    }
  }

  /** The form for editing an existing thesis. */
  class EditThesisForm {
    const isStaff: bool
    const instance: Thesis
    const submission: Submission
    /** The thesis's status when the form was built. */
    const captured: ThesisStatus

    constructor (isStaff: bool, instance: Thesis, submission: Submission)
      ensures this.isStaff == isStaff && this.instance == instance && this.submission == submission
      ensures captured == instance.status
    {
      this.isStaff := isStaff;
      this.instance := instance;
      this.submission := submission;
      captured := instance.status;
    }

    /** `EditThesisForm.save`. A form that does not validate raises
        ValueError. Otherwise the thesis gets the submitted values, its time
        of modification and the status `EditedStatus` gives; it is stored,
        with its students, only when `commit` is set. */
    method Save(commit: bool, now: int) returns (r: Result<Thesis>)
      modifies instance
      ensures !Clean(submission) ==> r == Err(ValueError) && unchanged(instance)
      ensures Clean(submission) ==> r == Ok(instance)
      ensures Clean(submission) ==>
        instance.status == EditedStatus(isStaff, captured, submission.status, "students" in submission.keys) &&
        instance.maxStudents == submission.maxStudents &&
        instance.modified == now && instance.added == old(instance.added)
      ensures Clean(submission) && commit ==>
        instance.students == submission.students && instance.stored == Some(instance.Row())
      ensures Clean(submission) && !commit ==>
        instance.students == old(instance.students) && instance.stored == old(instance.stored)
    {
      if !Clean(submission) {
        return Err(ValueError);
      }
      instance.status := submission.status;
      instance.maxStudents := submission.maxStudents;
      instance.modified := now;
      if !isStaff {
        var status := captured;
        if status == ReturnedForCorrections {
          instance.status := BeingEvaluated;
        } else if status == Accepted && "students" in submission.keys {
          instance.status := InProgress;
        } else if status == InProgress && "students" !in submission.keys {
          instance.status := Accepted;
        } else {
          instance.status := status;
        }
      }
      if commit {
        instance.students := submission.students;
        instance.Save();
      }
      r := Ok(instance);
    }
  }

  /** `auto_accept`, run after a vote is saved. `acceptedVotes` is the
      thesis's number of accepting votes, this one included, and `required`
      the number the settings ask for. */
  method AutoAccept(thesis: Thesis, vote: ThesisVote, acceptedVotes: nat, required: nat)
    modifies thesis
    ensures thesis.status == AutoAcceptedStatus(old(thesis.status), vote, acceptedVotes, required, |old(thesis.students)| == 0)
    ensures thesis.students == old(thesis.students) && thesis.maxStudents == old(thesis.maxStudents)
    ensures thesis.added == old(thesis.added) && thesis.modified == old(thesis.modified)
    ensures vote == VoteAccepted && acceptedVotes >= required ==> thesis.stored == Some(thesis.Row())
    ensures vote != VoteAccepted || acceptedVotes < required ==> thesis.stored == old(thesis.stored)
  {
    if vote == VoteAccepted && acceptedVotes >= required {
      if |thesis.students| == 0 {
        thesis.status := Accepted;
      } else {
        thesis.status := InProgress;
      }
      thesis.Save();
    }
  }
}

/** What the workflow guarantees across forms and votes. */
module ThesesProperties {
  import opened Theses

  /** Only votes accept a thesis: an edit by its non-staff author never puts
      a thesis that was neither accepted nor in progress into either state. */
  lemma EditNeverAccepts(captured: ThesisStatus, submitted: ThesisStatus, studentsKey: bool)
    requires captured != Accepted && captured != InProgress
    ensures EditedStatus(false, captured, submitted, studentsKey) != Accepted
    ensures EditedStatus(false, captured, submitted, studentsKey) != InProgress
  {
  }

  /** Saving the same submission twice gives the status saving it once does. */
  lemma EditIdempotent(captured: ThesisStatus, submitted: ThesisStatus, studentsKey: bool)
    ensures var once := EditedStatus(false, captured, submitted, studentsKey);
      EditedStatus(false, once, submitted, studentsKey) == once
  {
  }

  /** The number of accepting votes among `votes`. */
  function AcceptedCount(votes: seq<ThesisVote>): nat
  {
    if votes == [] then 0
    else AcceptedCount(votes[..|votes| - 1]) + (if votes[|votes| - 1] == VoteAccepted then 1 else 0)
  }

  /** The status after `auto_accept` has run for each of the votes in turn. */
  function StatusAfterVotes(status: ThesisStatus, votes: seq<ThesisVote>, required: nat, noStudents: bool): ThesisStatus
  {
    if votes == [] then status
    else AutoAcceptedStatus(StatusAfterVotes(status, votes[..|votes| - 1], required, noStudents),
      votes[|votes| - 1], AcceptedCount(votes), required, noStudents)
  }

  /** A thesis whose accepting votes reach the required number is accepted
      (in progress when it has students) and stays so under further votes;
      one whose votes never reach it keeps its status. */
  lemma {:induction false} VotesDecideStatus(status: ThesisStatus, votes: seq<ThesisVote>, required: nat, noStudents: bool)
    ensures AcceptedCount(votes) > 0 && AcceptedCount(votes) >= required ==>
      StatusAfterVotes(status, votes, required, noStudents) == (if noStudents then Accepted else InProgress)
    ensures AcceptedCount(votes) == 0 || AcceptedCount(votes) < required ==>
      StatusAfterVotes(status, votes, required, noStudents) == status
  {
    if votes != [] {
      VotesDecideStatus(status, votes[..|votes| - 1], required, noStudents);
    }
  }

  /** The four accepting votes of the status test, four being required. */
  lemma FourVotesAccept()
    ensures StatusAfterVotes(BeingEvaluated, [VoteAccepted, VoteAccepted, VoteAccepted, VoteAccepted], 4, true) == Accepted
    ensures StatusAfterVotes(BeingEvaluated, [VoteAccepted, VoteAccepted, VoteAccepted, VoteAccepted], 4, false) == InProgress
  {
    var a := VoteAccepted;
    var votes := [a, a, a, a];
    assert votes[..3] == [a, a, a] && [a, a, a][..2] == [a, a] && [a, a][..1] == [a] && [a][..0] == [];
    assert AcceptedCount([a]) == 1;
    assert AcceptedCount([a, a]) == 2;
    assert AcceptedCount([a, a, a]) == 3;
    assert AcceptedCount(votes) == 4;
    VotesDecideStatus(BeingEvaluated, votes, 4, true);
    VotesDecideStatus(BeingEvaluated, votes, 4, false);
  }

  /** Three accepting votes out of four required change nothing. */
  lemma ThreeVotesDoNotAccept()
    ensures StatusAfterVotes(BeingEvaluated, [VoteAccepted, VoteRejected, VoteAccepted, VoteAccepted], 4, true) == BeingEvaluated
  {
    var a, n := VoteAccepted, VoteRejected;
    var votes := [a, n, a, a];
    assert votes[..3] == [a, n, a] && [a, n, a][..2] == [a, n] && [a, n][..1] == [a] && [a][..0] == [];
    assert AcceptedCount([a]) == 1;
    assert AcceptedCount([a, n]) == 1;
    assert AcceptedCount([a, n, a]) == 2;
    assert AcceptedCount(votes) == 3;
    VotesDecideStatus(BeingEvaluated, votes, 4, true);
  }

  /** Exactly as many students as allowed is accepted, even when changed. */
  lemma AtLimitAccepted(s: Submission)
    requires |s.students| == s.maxStudents
    ensures Clean(s)
  {
  }
}

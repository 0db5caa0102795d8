/** The Poll entity and the draft record. */
module Polls {
  import opened Common

  datatype PollStatus = Open | Closed

  /** A published poll. Its identity and creation time have no setters, so
      they are constants here; the other fields are changed in place by the
      lifecycle manager. */
  class Poll {
    const id: Uuid
    const createdAt: int
    var code: Option<string>
    var question: string
    var options: seq<string>
    var closesAt: int
    var status: PollStatus

    /** The source copies the option list; a sequence is a value, so later
        changes to the caller's list cannot reach the poll. The code starts
        out unset. */
    constructor (id: Uuid, question: string, options: seq<string>, createdAt: int, closesAt: int, status: PollStatus)
      ensures this.id == id && this.createdAt == createdAt
      ensures this.question == question && this.options == options
      ensures this.closesAt == closesAt && this.status == status
      ensures this.code == None
    {
      this.id := id;
      this.createdAt := createdAt;
      this.question := question;
      this.options := options;
      this.closesAt := closesAt;
      this.status := status;
      this.code := None;
    }

    method SetCode(code: Option<string>)
      modifies this
      ensures this.code == code
      ensures question == old(question) && options == old(options)
      ensures closesAt == old(closesAt) && status == old(status)
    {
      this.code := code;
    }

    method SetQuestion(question: string)
      modifies this
      ensures this.question == question
      ensures code == old(code) && options == old(options)
      ensures closesAt == old(closesAt) && status == old(status)
    {
      this.question := question;
    }

    method SetOptions(options: seq<string>)
      modifies this
      ensures this.options == options
      ensures code == old(code) && question == old(question)
      ensures closesAt == old(closesAt) && status == old(status)
    {
      this.options := options;
    }

    method SetClosesAt(closesAt: int)
      modifies this
      ensures this.closesAt == closesAt
      ensures code == old(code) && question == old(question)
      ensures options == old(options) && status == old(status)
    {
      this.closesAt := closesAt;
    }

    method SetStatus(status: PollStatus)
      modifies this
      ensures this.status == status
      ensures code == old(code) && question == old(question)
      ensures options == old(options) && closesAt == old(closesAt)
    {
      this.status := status;
    }

    /** `isOpen` with the clock reading passed in: open status and a close
        time still ahead. A closed poll is never open, whatever the time. */
    predicate IsOpen(now: int)
      reads this
      ensures IsOpen(now) ==> status == Open && now < closesAt
      ensures status == Closed ==> !IsOpen(now)
    {
      status == Open && now < closesAt
    }
  }

  /** A saved draft (PollDraft): a plain record. */
  datatype PollDraft = PollDraft(
    code: string,
    creatorId: Uuid,
    question: Option<string>,
    durationSeconds: Option<int>,
    options: seq<string>,
    createdAt: int)
}

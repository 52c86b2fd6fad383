/** The stored records of lib/types.ts. Dates are millisecond timestamps. */
module PollTypes {

  /** An identifier from `uuidv4()`; the store issues them from a counter. */
  type Uuid = nat

  datatype User = User(user_id: Uuid, school_email: string, created_at: int)

  datatype School = School(school_id: Uuid, name: string, district: string, state: string)

  datatype DailyPoll = DailyPoll(
    poll_id: Uuid,
    school_id: Uuid,
    question: string,
    options: seq<string>,
    scheduled_for: int,
    created_at: int)

  datatype PollResponse = PollResponse(
    response_id: Uuid,
    poll_id: Uuid,
    responder_id: Uuid,
    chosen_option: string,
    selfie_video_url: string,
    submitted_at: int)
}

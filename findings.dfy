/** Three places where the server departs from what the schema and the
    booking dialog evidently intend.

    The lessons route parses a booking with the lesson insert schema, whose
    `scheduledAt` is a timestamp column and so accepts only a date object. A
    JSON body can carry the time only as a string, and the dialog sends the
    ISO string of the chosen slot, so every booking is refused with 400. The
    correction coerces the string to a date.

    Even with the time accepted, `createLesson` stores the spread insert
    record. The booking carries no status and the column default "scheduled"
    is not applied, so the booked lesson never counts as upcoming on the
    dashboard. The correction applies the default.

    `createUser` also stores the spread insert record. The registration
    schema leaves `role` optional and the column default "student" is not
    applied, so a registration without a role stores a user who is neither a
    student nor a teacher. The correction applies the default. */
module Findings {
  import opened Wrappers
  import opened Schema
  import Booking
  import Dashboard
  import Auth

  // ------------------------------------------------ the booking's timestamp

  /** The body the lessons route parses for a booking of offered slot
      `slot` on `day`: the dialog's request with the caller put in as student. */
  function BookedBody(data: Booking.LessonForm, day: Booking.Day, slot: int,
                      setHours: (Booking.Day, int, int) -> Timestamp, caller: string): (b: LessonBody)
    requires 0 <= slot < |Booking.TimeSlots|
    ensures b.studentId == Some(caller) && b.teacherId == Some(Booking.PlaceholderTeacher)
    ensures b.scheduledAt.Some? && b.scheduledAt.value.DateString?
    ensures b.status.None? && LessonFieldsPresent(b)
  {
    Booking.OfferedSlotBooks(data, day, slot, setHours);
    Booking.BookingRequest(data, Some(day), Booking.TimeSlots[slot], setHours).value.(studentId := Some(caller))
  }

  /** As written, every booking from the dialog fails the lessons route's
      parse on its `scheduledAt`, so the route answers 400 and stores nothing. */
  lemma BookingRejectedAsWritten(data: Booking.LessonForm, day: Booking.Day, slot: int,
                                 setHours: (Booking.Day, int, int) -> Timestamp, caller: string)
    requires 0 <= slot < |Booking.TimeSlots|
    ensures var r := ParseInsertLesson(BookedBody(data, day, slot, setHours, caller));
            r.Failure? && Issue("scheduledAt", ExpectedDate) in r.error
  {
  }

  /** The lesson insert schema with `scheduledAt` coerced to a date, so that
      an ISO string is read as the instant it names. */
  function ParseInsertLessonCoerced(b: LessonBody): (r: Result<InsertLesson, seq<Issue>>)
    ensures r.Success? <==> LessonFieldsPresent(b) && b.scheduledAt.Some?
    ensures r.Success? ==> r.value == InsertLesson(b.studentId.value, b.teacherId.value,
              b.title.value, b.description, b.lessonType.value, b.focusArea.value,
              b.scheduledAt.value.at, b.duration.value, b.status, b.notes, b.price.value)
  {
    ParseInsertLesson(b.(scheduledAt := if b.scheduledAt.Some? then Some(DateObject(b.scheduledAt.value.at))
                                        else None))
  }

  /** The instant the dialog computes for offered slot `slot` on `day`. */
  function SlotTime(day: Booking.Day, slot: int, setHours: (Booking.Day, int, int) -> Timestamp): Timestamp
    requires 0 <= slot < |Booking.TimeSlots|
  {
    Booking.TimeSlotsValid(slot);
    var c := Booking.SlotClock(Booking.TimeSlots[slot]).value;
    setHours(day, c.hour, c.minute)
  }

  /** With the coercion, every booking of an offered slot parses, with the
      caller as student, the placeholder teacher, the slot's time and no status. */
  lemma BookingAcceptedCoerced(data: Booking.LessonForm, day: Booking.Day, slot: int,
                               setHours: (Booking.Day, int, int) -> Timestamp, caller: string)
    requires 0 <= slot < |Booking.TimeSlots|
    ensures var r := ParseInsertLessonCoerced(BookedBody(data, day, slot, setHours, caller));
            && r.Success?
            && r.value.studentId == caller && r.value.teacherId == Booking.PlaceholderTeacher
            && r.value.scheduledAt == SlotTime(day, slot, setHours)
            && r.value.status.None?
  {
    Booking.OfferedSlotBooks(data, day, slot, setHours);
  }

  // --------------------------------------------------- the lesson's status

  /** The insert record of a booking once its time is accepted. */
  function BookedInsert(data: Booking.LessonForm, day: Booking.Day, slot: int,
                        setHours: (Booking.Day, int, int) -> Timestamp, caller: string): (ins: InsertLesson)
    requires 0 <= slot < |Booking.TimeSlots|
    ensures ins.studentId == caller && ins.teacherId == Booking.PlaceholderTeacher
    ensures ins.status.None?
  {
    BookingAcceptedCoerced(data, day, slot, setHours, caller);
    ParseInsertLessonCoerced(BookedBody(data, day, slot, setHours, caller)).value
  }

  /** As written, the lesson `createLesson` stores for such a booking has no
      status, so it is never upcoming, however far ahead it lies. */
  lemma BookedLessonHiddenAsWritten(data: Booking.LessonForm, day: Booking.Day, slot: int,
                                    setHours: (Booking.Day, int, int) -> Timestamp, caller: string,
                                    id: string, created: Timestamp, now: Timestamp)
    requires 0 <= slot < |Booking.TimeSlots|
    ensures var l := LessonFromInsert(BookedInsert(data, day, slot, setHours, caller), id, created);
            l.status.None? && !Dashboard.Upcoming(l, now)
  {
  }

  /** The stored lesson with the status column's default applied. */
  function LessonWithStatusDefault(ins: InsertLesson, id: string, now: Timestamp): (l: Lesson)
    ensures l.status == Some(ins.status.GetOr(DefaultLessonStatus))
    ensures l == LessonFromInsert(ins, id, now).(status := l.status)
    ensures ins.status.Some? ==> l == LessonFromInsert(ins, id, now)
  {
    LessonFromInsert(ins, id, now).(status := Some(ins.status.GetOr(DefaultLessonStatus)))
  }

  /** With the default applied, a booked lesson is upcoming for its student
      exactly while its slot lies ahead. */
  lemma BookedLessonUpcoming(data: Booking.LessonForm, day: Booking.Day, slot: int,
                             setHours: (Booking.Day, int, int) -> Timestamp, caller: string,
                             id: string, created: Timestamp, now: Timestamp)
    requires 0 <= slot < |Booking.TimeSlots|
    ensures var l := LessonWithStatusDefault(BookedInsert(data, day, slot, setHours, caller), id, created);
            && l.studentId == caller
            && l.scheduledAt == SlotTime(day, slot, setHours)
            && (Dashboard.Upcoming(l, now) <==> SlotTime(day, slot, setHours) > now)
  {
    BookingAcceptedCoerced(data, day, slot, setHours, caller);
  }

  // ------------------------------------------------------- the user's role

  /** As written, a registration that names no role stores a user without a
      role, who is neither a student nor a teacher. */
  lemma RoleMissingAsWritten(b: RegisterBody, id: string, hashed: string, now: Timestamp)
    requires ParseRegister(b).Success? && b.role.None?
    ensures var u := UserFromInsert(WithoutConfirmation(ParseRegister(b).value), id, hashed, now);
            u.role.None? && u.role != Some(Auth.StudentRole) && u.role != Some(Auth.TeacherRole)
  {
  }

  /** The stored user with the role column's default applied. */
  function UserWithRoleDefault(ins: InsertUser, id: string, hashed: string, now: Timestamp): (u: User)
    ensures u.role == Some(ins.role.GetOr(DefaultRole))
    ensures u == UserFromInsert(ins, id, hashed, now).(role := u.role)
    ensures ins.role.Some? ==> u == UserFromInsert(ins, id, hashed, now)
  {
    UserFromInsert(ins, id, hashed, now).(role := Some(ins.role.GetOr(DefaultRole)))
  }

  /** With the default applied, such a user is a student. */
  lemma RegisteredWithoutRoleIsStudent(b: RegisterBody, id: string, hashed: string, now: Timestamp)
    requires ParseRegister(b).Success? && b.role.None?
    ensures UserWithRoleDefault(WithoutConfirmation(ParseRegister(b).value), id, hashed, now).role ==
            Some(Auth.StudentRole)
  {
  }
}

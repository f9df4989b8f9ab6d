/**
 * The enumerations and the schedule record shared by the client and the
 * service: the string unions of the client's type declarations and the
 * `choices` lists of the Django models.
 */
module Types {

  /** `schedule_type`: 'personal' | 'group' | 'consultation' | 'other'. */
  datatype ScheduleType = Personal | Group | Consultation | Other {

    function Code(): string
    {
      match this
      case Personal => "personal"
      case Group => "group"
      case Consultation => "consultation"
      case Other => "other"
    }
  }

  /** `status`: 'scheduled' | 'completed' | 'cancelled' | 'no_show'. */
  datatype ScheduleStatus = Scheduled | Completed | Cancelled | NoShow {

    function Code(): string
    {
      match this
      case Scheduled => "scheduled"
      case Completed => "completed"
      case Cancelled => "cancelled"
      case NoShow => "no_show"
    }
  }

  /** `post_type`: 'workout' | 'progress' | 'note'. */
  datatype PostType = Workout | Progress | Note {

    function Code(): string
    {
      match this
      case Workout => "workout"
      case Progress => "progress"
      case Note => "note"
    }
  }

  /**
   * A schedule as the client receives it. `date` is the ISO `YYYY-MM-DD` key
   * and the times are zero-padded `HH:MM[:SS]` strings; the fields the model
   * never reads are left out.
   */
  datatype Schedule = Schedule(
    id: int,
    title: string,
    description: string,
    scheduleType: ScheduleType,
    date: string,
    startTime: string,
    endTime: string,
    trainer: int,
    participantCount: int,
    maxParticipants: int)
}

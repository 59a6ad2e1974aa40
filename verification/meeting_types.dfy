/** The record shapes of src/types/Meeting.types.ts: a meeting record and the
    action items it carries, with the two string-literal unions as enums. */
module MeetingTypes {

  datatype Option<T> = None | Some(value: T)

  /** `sourceType: 'slack' | 'voice' | 'manual'` */
  datatype SourceType = Slack | Voice | Manual

  /** The string the source stores for each source type. */
  function SourceName(t: SourceType): string {
    match t
    case Slack => "slack"
    case Voice => "voice"
    case Manual => "manual"
  }

  /** `priority: 'low' | 'medium' | 'high' | 'critical'` */
  datatype Priority = Low | Medium | High | Critical

  /** `ActionItem`; `estimatedHours` is a whole number of hours here. */
  datatype ActionItem = ActionItem(
    id: string,
    description: string,
    assignee: string,
    dueDate: Option<string>,
    priority: Priority,
    completed: bool,
    estimatedHours: Option<int>)

  /** `MeetingMinutes`; `date` is an ISO `YYYY-MM-DD` string. */
  datatype MeetingMinutes = MeetingMinutes(
    id: string,
    title: string,
    date: string,
    attendees: seq<string>,
    content: string,
    sourceType: SourceType,
    rawInput: string,
    createdAt: string,
    updatedAt: string,
    keyPoints: seq<string>,
    actionItems: seq<ActionItem>,
    conclusion: Option<string>,
    tags: Option<seq<string>>)
}

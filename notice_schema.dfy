/** The shape of a stored notice (models/Notice.js): every text field is an
    optional string, publishDate is an optional date, status is a string that
    defaults to "Unpublished", and the store keeps createdAt/updatedAt. */
module NoticeSchema {

  datatype Option<T> = None | Some(value: T)

  /** Store-generated identifier of a record. */
  type Id = nat

  /** A date, as milliseconds since the epoch. */
  type Timestamp = int

  /** The three status values the routes ever write. */
  datatype Status = Draft | Unpublished | Published

  /** The string stored in the status field. */
  function StatusName(s: Status): (name: string)
  {
    match s
    case Draft => "Draft"
    case Unpublished => "Unpublished"
    case Published => "Published"
  }

  lemma StatusNameInjective(a: Status, b: Status)
    ensures StatusName(a) == StatusName(b) <==> a == b
  {
    if StatusName(a) == StatusName(b) {
      assert StatusName(a)[0] == StatusName(b)[0];
    }
  }

  /** The domain fields of a notice. No field is required by the schema, so
      any of them may be absent; publishDate is a date, not a string. */
  datatype Content = Content(
    target: Option<string>,
    title: Option<string>,
    employeeId: Option<string>,
    employeeName: Option<string>,
    position: Option<string>,
    noticeType: Option<string>,
    publishDate: Option<Timestamp>,
    noticeBody: Option<string>)

  datatype Notice = Notice(
    id: Id,
    content: Content,
    attachmentName: string,
    attachmentPath: string,
    status: Status,
    createdAt: Timestamp,
    updatedAt: Timestamp)

  /** A freshly inserted document: the schema default applies when no status
      is given, and both timestamps are the insertion time. */
  function Make(id: Id, content: Content, attachmentName: string, attachmentPath: string,
                status: Option<Status>, now: Timestamp): (n: Notice)
    ensures status.None? ==> n.status == Unpublished
    ensures status.Some? ==> n.status == status.value
    ensures n.createdAt == now && n.updatedAt == now
    ensures n.id == id && n.content == content
    ensures n.attachmentName == attachmentName && n.attachmentPath == attachmentPath
  {
    Notice(id, content, attachmentName, attachmentPath,
           if status.Some? then status.value else Unpublished, now, now)
  }
}

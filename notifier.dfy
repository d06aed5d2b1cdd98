/** `send_mail`: the report mail handed to the database's mail procedure. Whatever the database
    answers, the call commits and returns normally. */
module Notifier {

  /** The mail as the stored procedure receives it. */
  datatype Mail = Mail(attachment: string, recipients: string, copyRecipients: string, body: string)

  /** What executing the mail procedure gives back: a result set, the `ResourceClosedError`
      raised when it returns no rows, or any other error. */
  datatype SinkResponse = ResultSet | ResourceClosed | Failed(detail: string)

  /** The log lines `send_mail` writes. */
  datatype LogLine = SentNotice(recipients: string, copyRecipients: string) | SendError(detail: string)

  datatype MailOutcome = MailOutcome(mail: Mail, committed: bool, log: seq<LogLine>)

  /** The file attached to a mail: none when the recipient is the support address. */
  function Attachment(path: string, recipients: string, support: string): (a: string)
    ensures recipients == support ==> a == ""
    ensures recipients != support ==> a == path
  {
    if recipients == support then "" else path
  }

  /** The mail `send_mail` hands on: the given recipients, copy recipients and body, and the
      file only when it is not for support and the path is not empty. */
  function ComposeMail(path: string, recipients: string, copyRecipients: string, body: string,
                       support: string): (m: Mail)
    ensures m.recipients == recipients && m.copyRecipients == copyRecipients && m.body == body
    ensures m.attachment != "" <==> recipients != support && path != ""
    ensures m.attachment != "" ==> m.attachment == path
  {
    Mail(Attachment(path, recipients, support), recipients, copyRecipients, body)
  }

  /** The whole call: the success notice is logged before the procedure runs, and so appears
      even when the procedure fails; every outcome commits; only an error other than
      `ResourceClosedError` adds an error line. */
  function SendMail(mail: Mail, response: SinkResponse): (r: MailOutcome)
    ensures r.mail == mail && r.committed
    ensures |r.log| >= 1 && r.log[0] == SentNotice(mail.recipients, mail.copyRecipients)
    ensures |r.log| == 2 <==> response.Failed?
    ensures response.Failed? ==> r.log[1] == SendError(response.detail)
    ensures |r.log| <= 2
  {
    var notice := [SentNotice(mail.recipients, mail.copyRecipients)];
    match response
    case ResultSet => MailOutcome(mail, true, notice)
    case ResourceClosed => MailOutcome(mail, true, notice)
    case Failed(detail) => MailOutcome(mail, true, notice + [SendError(detail)])
  }
}

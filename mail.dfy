/** The e-mail producer as the services see it: `SendEmail(key, message)`
    publishes one message or fails. Kafka is reduced to the list of messages
    published so far. */
module Mail {
  import opened Wrappers

  /** `producer.EmailMessage`; the template data holds only strings here. */
  datatype EmailMessage = EmailMessage(to: string, subject: string, template: string, data: map<string, string>)

  datatype MailError = BrokerUnavailable

  class EmailProducer {
    /** The published messages, each with its partition key, oldest first. */
    var sent: seq<(string, EmailMessage)>

    constructor ()
      ensures sent == []
    {
      sent := [];
    }

    /** `SendEmail`: publishes `msg` under `key`, or fails and publishes nothing. */
    method SendEmail(key: string, msg: EmailMessage, down: bool) returns (err: Option<MailError>)
      modifies this
      ensures err == (if down then Some(BrokerUnavailable) else None)
      ensures sent == if down then old(sent) else old(sent) + [(key, msg)]
    {
      if down {
        return Some(BrokerUnavailable);
      }
      sent := sent + [(key, msg)];
      return None;
    }
  }
}

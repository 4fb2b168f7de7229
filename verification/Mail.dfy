/** The parsed message as the store keeps it; times are nanoseconds since the zero time. */
module Mail {
  datatype Address = Address(name: string, address: string)
  datatype Envelope = Envelope(from: string, to: seq<string>)

  datatype Message = Message(
    id: string,
    from: Address,
    to: seq<Address>,
    cc: seq<Address>,
    subject: string,
    text: string,
    html: string,
    attachments: seq<nat>,  // lengths of the decoded attachments
    envelope: Envelope,
    createdAt: nat)
}

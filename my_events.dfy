/** The user's list of their own registrations: status label, confirmation
    id, rejection reason and the ticket button of each card. */
module MyEventsPage {
  import opened Common
  import opened Models
  import opened Items
  import RegistrationsApi

  /** The confirmation id is printed when present and non-empty. */
  predicate ShowsConfirmationId(g: RegistrationItem)
  {
    Truthy(g.confirmationId)
  }

  /** The rejection-reason box is printed when the reason is non-empty. */
  predicate ShowsRejectionBox(g: RegistrationItem)
  {
    Truthy(g.rejectionReason)
  }

  /** The ticket (QR code) button: approved and with a confirmation id. */
  predicate OffersTicket(g: RegistrationItem)
  {
    g.status == "approved" && Truthy(g.confirmationId)
  }

  /** A card that offers a ticket also prints the id the ticket encodes. */
  lemma TicketHasConfirmationId(g: RegistrationItem)
    requires OffersTicket(g)
    ensures ShowsConfirmationId(g)
  {
  }

  /** A registration the backend created (its id is a generated
      confirmation id) and then approved offers a ticket and no rejection
      box; once rejected with a reason, it shows the box and no ticket. */
  lemma ReviewedRegistrationCard(g: RegistrationRecord, eventId: int, digits: string,
                                 reason: string, attendee: Option<Attendee>)
    requires g.eventId.Some? && RegistrationsApi.IsSixDigits(digits)
    requires g.confirmationId == Some(RegistrationsApi.ConfirmationId(eventId, digits))
    ensures var approved := RegistrationItemOf(g.(status := Approved, rejectionReason := None), attendee);
            OffersTicket(approved) && !ShowsRejectionBox(approved)
    ensures var rejected := RegistrationItemOf(g.(status := Rejected, rejectionReason := Some(reason)), attendee);
            !OffersTicket(rejected) && (ShowsRejectionBox(rejected) <==> reason != "")
  {
    var c := RegistrationsApi.ConfirmationId(eventId, digits);
    assert |c| >= 12;
  }

  /** For a registration the backend created, whose confirmation id is
      always set, the ticket is offered exactly when it is approved. */
  lemma TicketExactlyWhenApproved(g: RegistrationRecord, eventId: int, digits: string,
                                  attendee: Option<Attendee>)
    requires g.eventId.Some? && RegistrationsApi.IsSixDigits(digits)
    requires g.confirmationId == Some(RegistrationsApi.ConfirmationId(eventId, digits))
    ensures OffersTicket(RegistrationItemOf(g, attendee)) <==> g.status == Approved
  {
    var c := RegistrationsApi.ConfirmationId(eventId, digits);
    assert |c| >= 12;
  }

  /** The label of each backend status: its name with a capital first letter,
      never empty. */
  lemma StatusLabelOfStatus(s: RegistrationStatus)
    ensures var name := RegistrationStatusName(s);
            |Capitalize(name)| == |name| > 0 && Capitalize(name)[1..] == name[1..]
            && Capitalize(name)[0] == UpperChar(name[0]) && IsUpper(Capitalize(name)[0])
  {
  }
}

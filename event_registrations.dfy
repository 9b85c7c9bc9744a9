/** The organiser's attendee list for one event: search, status display, and
    the confirm and reject actions on pending registrations. */
module EventRegistrationsPage {
  import opened Common
  import opened Models
  import opened Items
  import opened ListView

  /** Case-insensitive search over the attendee's name, the attendee's e-mail
      and the confirmation id; a missing value never matches. */
  predicate MatchesSearch(g: RegistrationItem, term: string)
  {
    || (g.user.Some? && g.user.value.fullName.Some?
        && Contains(Lower(g.user.value.fullName.value), Lower(term)))
    || (g.user.Some? && g.user.value.email.Some?
        && Contains(Lower(g.user.value.email.value), Lower(term)))
    || (g.confirmationId.Some? && Contains(Lower(g.confirmationId.value), Lower(term)))
  }

  function FilteredRegistrations(regs: seq<RegistrationItem>, term: string): (r: seq<RegistrationItem>)
    ensures forall g :: g in r <==> g in regs && MatchesSearch(g, term)
    ensures IsSubsequence(r, regs)
  {
    FilterIsSubsequence(regs, (g: RegistrationItem) => MatchesSearch(g, term));
    Filter(regs, (g: RegistrationItem) => MatchesSearch(g, term))
  }

  /** Any registration is found by its own confirmation id, whatever its
      letter case. */
  lemma FoundByConfirmationId(regs: seq<RegistrationItem>, g: RegistrationItem)
    requires g in regs && g.confirmationId.Some?
    ensures g in FilteredRegistrations(regs, g.confirmationId.value)
  {
    ContainsSelf(Lower(g.confirmationId.value));
  }

  /** The confirmation-id cell: the id, or "N/A" when it is missing or empty. */
  function ConfirmationCell(g: RegistrationItem): (text: string)
    ensures Truthy(g.confirmationId) ==> text == g.confirmationId.value
    ensures !Truthy(g.confirmationId) ==> text == "N/A"
  {
    if Truthy(g.confirmationId) then g.confirmationId.value else "N/A"
  }

  /** The rejection reason is shown under the status when it is non-empty. */
  predicate ShowsRejectionReason(g: RegistrationItem)
  {
    Truthy(g.rejectionReason)
  }

  /** Confirm and reject are offered only on pending registrations. */
  predicate ShowsActions(g: RegistrationItem)
  {
    g.status == "pending"
  }

  /** The dialog's Reject button is disabled while the reason is empty. */
  predicate RejectDisabled(reason: string)
  {
    reason == ""
  }

  /** A row offers confirm and reject exactly while its registration is
      pending in the database: a new registration does, an approved or
      rejected one does not. */
  lemma ActionsWhilePending(g: RegistrationRecord, attendee: Option<Attendee>)
    requires g.eventId.Some?
    ensures ShowsActions(RegistrationItemOf(g, attendee)) <==> g.status == Pending
  {
  }

  /** `registrations.map(r => r.id === id ? { ...r, status, rejection_reason } : r)`. */
  function WithStatus(regs: seq<RegistrationItem>, id: int, status: string,
                      reason: Option<string>): (r: seq<RegistrationItem>)
    ensures |r| == |regs|
    ensures forall i :: 0 <= i < |r| ==>
      r[i] == if regs[i].id == id then regs[i].(status := status, rejectionReason := reason) else regs[i]
  {
    seq(|regs|, i requires 0 <= i < |regs| =>
      if regs[i].id == id then regs[i].(status := status, rejectionReason := reason) else regs[i])
  }

  /** Once a registration has been confirmed or rejected on the page, its row
      offers no more actions, and the rows of other registrations are kept. */
  lemma ReviewedRowsLoseActions(regs: seq<RegistrationItem>, id: int, status: string,
                                reason: Option<string>, i: nat)
    requires status == "approved" || status == "rejected"
    requires i < |regs|
    ensures regs[i].id == id ==> !ShowsActions(WithStatus(regs, id, status, reason)[i])
    ensures regs[i].id != id ==> WithStatus(regs, id, status, reason)[i] == regs[i]
  {
  }

  /** A reason the dialog lets through is not empty, so the rejected row
      carries it, shows it under its status, and offers no more actions. */
  lemma EnabledRejectShowsReason(regs: seq<RegistrationItem>, id: int, reason: string, i: nat)
    requires !RejectDisabled(reason)
    requires i < |regs| && regs[i].id == id
    ensures var row := WithStatus(regs, id, "rejected", Some(reason))[i];
            row.rejectionReason == Some(reason) && ShowsRejectionReason(row) && !ShowsActions(row)
  {
  }

  datatype EventRegistrationsState = EventRegistrationsState(
    registrations: seq<RegistrationItem>,
    selectedReg: Option<RegistrationItem>,
    rejectReason: string,
    searchTerm: string,
    error: Option<string>)

  class EventRegistrations {
    /** The event of the route. */
    const eventId: int
    var registrations: seq<RegistrationItem>
    var selectedReg: Option<RegistrationItem>
    var rejectReason: string
    var searchTerm: string
    var error: Option<string>

    function State(): EventRegistrationsState
      reads this
    {
      EventRegistrationsState(registrations, selectedReg, rejectReason, searchTerm, error)
    }

    constructor (eventId: int)
      ensures this.eventId == eventId
      ensures State() == EventRegistrationsState([], None, "", "", None)
    {
      this.eventId := eventId;
      registrations, selectedReg, rejectReason, searchTerm, error := [], None, "", "", None;
    }

    /** The registrations from `/registrations/events/{id}`; a failed
        request keeps them and sets the error. */
    method FetchRegistrations(response: Option<seq<RegistrationItem>>)
      modifies this
      ensures response.Some? ==> State() == old(State()).(registrations := response.value)
      ensures response.None? ==> State() == old(State()).(error := Some("Failed to load registrations."))
    {
      if response.Some? {
        registrations := response.value;
      } else {
        error := Some("Failed to load registrations.");
      }
    }

    /** `handleConfirm`: on success the row becomes approved with no reason;
        a failed call changes nothing. */
    method Confirm(regId: int, ok: bool) returns (call: ApiCall)
      modifies this
      ensures call == ApiCall(Put, RegistrationActionPath(regId, "confirm"), None)
      ensures ok ==> State() == old(State()).(registrations := WithStatus(old(registrations), regId, "approved", None))
      ensures !ok ==> State() == old(State())
    {
      call := ApiCall(Put, RegistrationActionPath(regId, "confirm"), None);
      if ok {
        registrations := WithStatus(registrations, regId, "approved", None);
      }
    }

    /** Opening (`Some`) or dismissing (`None`) the reject dialog. */
    method SelectForRejection(g: Option<RegistrationItem>)
      modifies this
      ensures State() == old(State()).(selectedReg := g)
    {
      selectedReg := g;
    }

    method SetRejectReason(reason: string)
      modifies this
      ensures State() == old(State()).(rejectReason := reason)
    {
      rejectReason := reason;
    }

    /** `handleReject`: nothing without a selection or with an empty reason (no
        request either); otherwise reject with the reason, and on success the
        row becomes rejected with exactly that reason and the dialog resets. */
    method Reject(ok: bool) returns (call: Option<ApiCall>)
      modifies this
      ensures (old(selectedReg).None? || old(rejectReason) == "") ==> call == None && State() == old(State())
      ensures old(selectedReg).Some? && old(rejectReason) != "" ==>
        && call == Some(ApiCall(Put, RegistrationActionPath(old(selectedReg).value.id, "reject"),
                                Some(old(rejectReason))))
        && (ok ==> State() == EventRegistrationsState(
              WithStatus(old(registrations), old(selectedReg).value.id, "rejected", Some(old(rejectReason))),
              None, "", old(searchTerm), old(error)))
        && (!ok ==> State() == old(State()))
    {
      if selectedReg.None? || rejectReason == "" {
        return None;
      }
      var id := selectedReg.value.id;
      call := Some(ApiCall(Put, RegistrationActionPath(id, "reject"), Some(rejectReason)));
      if ok {
        registrations := WithStatus(registrations, id, "rejected", Some(rejectReason));
        selectedReg := None;
        rejectReason := "";
      }
    }

    method SetSearchTerm(term: string)
      modifies this
      ensures State() == old(State()).(searchTerm := term)
    {
      searchTerm := term;
    }

    function Filtered(): seq<RegistrationItem>
      reads this
    {
      FilteredRegistrations(registrations, searchTerm)
    }
  }
}

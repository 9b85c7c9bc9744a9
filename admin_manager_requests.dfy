/** The admin's queue of manager applications, with one dialog for both
    approving and rejecting. */
module AdminManagerRequestsPage {
  import opened Common
  import opened Models
  import opened Items
  import MyManagerRequestPage

  /** The dialog's `actionType`. */
  datatype Action = Approve | Reject

  function ActionName(a: Action): string
  {
    match a
    case Approve => "approve"
    case Reject => "reject"
  }

  /** The confirm button is disabled exactly when rejecting without a
      comment. */
  predicate ConfirmDisabled(actionType: Option<Action>, comment: string)
  {
    actionType == Some(Reject) && comment == ""
  }

  /** Approval is never blocked; a rejection the dialog lets through has a
      non-empty comment, which the backend stores as the rejection reason,
      so the applicant's page reads the request as rejected, quoting it,
      with the feedback block. */
  lemma EnabledRejectionReachesApplicant(u: UserRecord, comment: string)
    requires !ConfirmDisabled(Some(Reject), comment)
    ensures !ConfirmDisabled(Some(Approve), comment)
    ensures var item := UserItemOf(u.(isApproved := false, rejectionReason := Some(comment),
                                      adminComment := Some(comment)));
            && MyManagerRequestPage.GetStatusConfig(item) == MyManagerRequestPage.RejectedConfig(comment)
            && MyManagerRequestPage.ShowsFeedback(item)
  {
  }

  datatype RequestsState = RequestsState(
    requests: seq<UserItem>,
    selectedRequest: Option<UserItem>,
    adminComment: string,
    actionType: Option<Action>)

  /** The dialog closed: nothing selected, no action, no comment. */
  function Closed(requests: seq<UserItem>): RequestsState
  {
    RequestsState(requests, None, "", None)
  }

  class AdminManagerRequests {
    var requests: seq<UserItem>
    var selectedRequest: Option<UserItem>
    var adminComment: string
    var actionType: Option<Action>

    function State(): RequestsState
      reads this
    {
      RequestsState(requests, selectedRequest, adminComment, actionType)
    }

    constructor ()
      ensures State() == Closed([])
    {
      requests, selectedRequest, adminComment, actionType := [], None, "", None;
    }

    /** `fetchRequests`: the pending managers; kept on failure. */
    method FetchRequests(response: Option<seq<UserItem>>)
      modifies this
      ensures State() == old(State()).(requests := if response.Some? then response.value else old(requests))
    {
      if response.Some? {
        requests := response.value;
      }
    }

    /** `openModal`: the request and the action, with an empty comment. */
    method OpenModal(request: UserItem, action: Action)
      modifies this
      ensures State() == RequestsState(old(requests), Some(request), "", Some(action))
    {
      selectedRequest := Some(request);
      actionType := Some(action);
      adminComment := "";
    }

    /** `closeModal`. */
    method CloseModal()
      modifies this
      ensures State() == Closed(old(requests))
    {
      selectedRequest := None;
      actionType := None;
      adminComment := "";
    }

    method SetAdminComment(comment: string)
      modifies this
      ensures State() == old(State()).(adminComment := comment)
    {
      adminComment := comment;
    }

    /** `handleAction`: nothing without a selected request and action, nor
        when rejecting without a comment (no request either). Otherwise the
        chosen endpoint is called with the comment as reason (the empty one
        included, for an approval); on success exactly that id leaves the
        queue and the dialog closes; a failed call changes nothing. */
    method HandleAction(ok: bool) returns (call: Option<ApiCall>)
      modifies this
      ensures (old(selectedRequest).None? || old(actionType).None?) ==>
        call == None && State() == old(State())
      ensures old(selectedRequest).Some? && old(actionType).Some? ==>
        (call.Some? <==> !ConfirmDisabled(old(actionType), old(adminComment)))
      ensures call.None? ==> State() == old(State())
      ensures call.Some? ==>
        && old(selectedRequest).Some? && old(actionType).Some?
        && call.value == ApiCall(Put, UserActionPath(old(selectedRequest).value.id, ActionName(old(actionType).value)),
                                 Some(old(adminComment)))
        && (ok ==> State() == Closed(WithoutId(old(requests), old(selectedRequest).value.id)))
        && (!ok ==> State() == old(State()))
    {
      if selectedRequest.None? || actionType.None? {
        return None;
      }
      if actionType == Some(Reject) && adminComment == "" {
        return None;
      }
      var id := selectedRequest.value.id;
      // `adminComment || ''` is the comment itself: an empty one stays empty
      call := Some(ApiCall(Put, UserActionPath(id, ActionName(actionType.value)), Some(adminComment)));
      if ok {
        requests := WithoutId(requests, id);
        CloseModal();
      }
    }
  }
}

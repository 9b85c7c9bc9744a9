/** The applicant's view of their own manager request: the status card, the
    fetch error messages, the admin feedback block and the ID-proof preview. */
module MyManagerRequestPage {
  import opened Common
  import opened Models
  import opened Items
  import UsersApi

  /** What the status card shows. */
  datatype StatusConfig = StatusConfig(title: string, message: string)

  const ApprovedConfig: StatusConfig :=
    StatusConfig("Approved", "Congratulations! Your request has been approved. You can now create and manage events.")
  const PendingConfig: StatusConfig :=
    StatusConfig("Pending Review", "Your request is currently being reviewed by our administrative team.")

  function RejectedConfig(reason: string): StatusConfig
  {
    StatusConfig("Rejected", "Your request was not approved. Reason: " + reason)
  }

  /** `getStatusConfig`: approval wins whatever the rejection reason; then a
      non-empty rejection reason means rejected, quoting it; anything else is
      pending. Exactly one of the three applies to every request. */
  function GetStatusConfig(request: UserItem): (c: StatusConfig)
    ensures request.isApproved ==> c == ApprovedConfig
    ensures !request.isApproved && Truthy(request.rejectionReason) ==>
      c == RejectedConfig(request.rejectionReason.value)
    ensures !request.isApproved && !Truthy(request.rejectionReason) ==> c == PendingConfig
    ensures c.title in {"Approved", "Rejected", "Pending Review"}
  {
    if request.isApproved then ApprovedConfig
    else if Truthy(request.rejectionReason) then RejectedConfig(request.rejectionReason.value)
    else PendingConfig
  }

  /** The message for a failed fetch: its own for a 404 (no request made),
      a generic one for any other failure, with or without a response. */
  function FetchErrorMessage(status: Option<int>): (m: string)
    ensures status == Some(404) ==> m == "No manager request found. You haven't requested to become an Event Manager yet."
    ensures status != Some(404) ==> m == "Failed to load request details."
  {
    if status == Some(404) then "No manager request found. You haven't requested to become an Event Manager yet."
    else "Failed to load request details."
  }

  /** The feedback block appears when there is an admin comment or a
      rejection reason, empty strings counting as absent. */
  predicate ShowsFeedback(request: UserItem)
  {
    Truthy(request.adminComment) || Truthy(request.rejectionReason)
  }

  /** The proof is previewed as a PDF when its lower-cased URL ends with
      ".pdf", and as an image otherwise. */
  predicate PreviewsAsPdf(request: UserItem)
  {
    request.idProofUrl.Some? && EndsWith(Lower(request.idProofUrl.value), ".pdf")
  }

  /** What an applicant sees after an admin approved the request, whatever
      comment came with it. */
  lemma ApprovalShownAsApproved(u: UserRecord, reason: Option<string>)
    ensures GetStatusConfig(UserItemOf(u.(isApproved := true, rejectionReason := None,
                                          adminComment := reason))) == ApprovedConfig
  {
  }

  /** What an applicant sees after an admin rejected the request: the
      rejection quoting the reason, with the feedback block; except that an
      empty reason, which the rejection endpoint accepts, reads as still
      pending and shows no feedback. */
  lemma RejectionShownToApplicant(u: UserRecord, reason: string)
    ensures var item := UserItemOf(u.(isApproved := false, rejectionReason := Some(reason),
                                      adminComment := Some(reason)));
            && (reason != "" ==> GetStatusConfig(item) == RejectedConfig(reason) && ShowsFeedback(item))
            && (reason == "" ==> GetStatusConfig(item) == PendingConfig && !ShowsFeedback(item))
  {
  }

  /** After a backend approval the feedback block appears exactly when the
      admin's comment is non-empty; a request the applicant has just made,
      never reviewed, shows none. */
  lemma FeedbackAfterApproval(u: UserRecord, comment: Option<string>)
    requires u.rejectionReason.None? && u.adminComment.None?
    ensures ShowsFeedback(UserItemOf(u.(isApproved := true, rejectionReason := None,
                                        adminComment := comment))) <==>
      comment.Some? && comment.value != ""
    ensures !ShowsFeedback(UserItemOf(u))
  {
  }

  /** Lower-casing works character by character, so it commutes with
      taking a suffix. */
  lemma LowerSuffix(a: string, b: string)
    ensures Lower(a + b)[|a|..] == Lower(b)
  {
  }

  /** A path ending in an allowed, lower-case extension ends in ".pdf",
      once lower-cased, exactly when that extension is ".pdf". */
  lemma PdfEnding(head: string, ext: string)
    requires UsersApi.IsAllowedExtension(ext) && Lower(ext) == ext
    ensures EndsWith(Lower(head + ext), ".pdf") <==> ext == ".pdf"
  {
    var low := Lower(head + ext);
    LowerSuffix(head, ext);
    assert low[|head|..] == ext;
    assert low[|low| - 4..] == ext[|ext| - 4..];
  }

  /** A stored ID proof is previewed as a PDF exactly when the uploaded
      file's extension was ".pdf". */
  lemma UploadedProofPreview(filename: string, uuid: string, request: UserItem)
    requires UsersApi.UploadIdProof(filename, uuid, true).Ok?
    requires request.idProofUrl == Some(UsersApi.UploadIdProof(filename, uuid, true).value)
    ensures PreviewsAsPdf(request) <==> UsersApi.FileExtension(filename) == ".pdf"
  {
    var ext := UsersApi.FileExtension(filename);
    assert UsersApi.IsAllowedExtension(ext);
    LowerIdempotent(UsersApi.NameSuffix(UsersApi.FinalComponent(filename)));
    PdfEnding(UsersApi.UploadDirectory + uuid, ext);
  }
}

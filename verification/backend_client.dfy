/**
 * The front end that talks to the server (frontend/script-backend.js): the same
 * module-level state as the browser-only front end, with the listing held as the
 * server's metadata documents and the pending deletion as a document id. What
 * the network and the file reader yielded is passed in: a `ListReply` for each
 * listing fetch, a `Reply` for an upload or deletion, the data URL the reader
 * produced (absent on error).
 */
module BackendClient {
  import opened Common
  import opened DateFields
  import opened Listing
  import opened Forms
  import opened Controller

  function MetadataView(m: Metadata): View
  {
    View(m.category, m.name, m.issuer, m.notes)
  }

  /** `currentFile`: the chosen file's name and its contents as a data URL. */
  datatype SelectedFile = SelectedFile(name: string, data: string)

  /** A listing fetch: a reply with `success` and its data, a reply without
      `success`, or a request that threw (no server, or a body that is not JSON). */
  datatype ListReply = ListOk(data: seq<Metadata>) | ListRefused | ListUnreachable

  /** An upload or deletion: a reply with `success`, one without, or a request that threw. */
  datatype Reply = Succeeded | Refused | Unreachable

  /** The listing after `loadCertificatesFromBackend`: the server's data on
      success, unchanged on a refusal, empty when the request threw. */
  function Reloaded(certificates: seq<Metadata>, reply: ListReply): seq<Metadata>
  {
    match reply
    case ListOk(data) => data
    case ListRefused => certificates
    case ListUnreachable => []
  }

  /** The JSON body `handleFormSubmit` posts. */
  function UploadBodyOf(form: Form, file: SelectedFile): UploadBody
  {
    UploadBody(Some(Trim(form.name)), Some(Trim(form.issuer)), Some(DateString(form.year, form.month, form.day)),
               Some(form.category), Some(Trim(form.notes)), Some(file.data), Some(file.name))
  }

  /** The server refuses a body this client sends exactly when the trimmed name or
      issuer, the category, the file name or the file data is empty; the date the
      client builds is never empty, and for masked month and day fields it splits
      back into the year and the zero-padded month and day. */
  lemma ServerAcceptsClientBody(form: Form, file: SelectedFile)
    ensures HasRequiredFields(UploadBodyOf(form, file)) <==>
      Trim(form.name) != [] && Trim(form.issuer) != [] && form.category != [] &&
      file.name != [] && file.data != []
    ensures |form.month| <= 2 && |form.day| <= 2 ==>
      SplitDate(UploadBodyOf(form, file).date.value) == Some((form.year, PadStart2(form.month), PadStart2(form.day)))
  {
    if |form.month| <= 2 && |form.day| <= 2 {
      DateStringRoundTrip(form.year, form.month, form.day);
    }
    var body := UploadBodyOf(form, file);
    assert body.date.value[|form.year|] == '-';
    assert Present(body.date);
    assert Present(body.name) == (Trim(form.name) != []);
    assert Present(body.issuer) == (Trim(form.issuer) != []);
  }

  /** The blob the server stores for a data URL `data:application/pdf;base64,<payload>`
      read by this client is the payload itself. */
  lemma StoredPayloadOfClientFile(form: Form, name: string, payload: string)
    requires ',' !in payload
    ensures var file := SelectedFile(name, "data:application/pdf;base64," + payload);
      Payload(UploadBodyOf(form, file).fileData.value) == Some(payload)
  {
    PayloadOfDataUrl("data:application/pdf;base64", payload);
    assert "data:application/pdf;base64," + payload == "data:application/pdf;base64" + "," + payload;
  }

  class Client {
    var certificates: seq<Metadata>
    var currentFile: Option<SelectedFile>
    var currentFilter: string
    var isProcessing: bool
    var pendingDelete: Option<string>

    /** The state before the first fetch. */
    constructor ()
      ensures certificates == [] && currentFile == None && currentFilter == "all"
      ensures !isProcessing && pendingDelete == None
    {
      certificates := [];
      currentFile := None;
      currentFilter := "all";
      isProcessing := false;
      pendingDelete := None;
    }

    /** `loadCertificatesFromBackend`. */
    method Load(reply: ListReply)
      modifies this
      ensures certificates == Reloaded(old(certificates), reply)
      ensures reply.ListOk? ==> certificates == reply.data
      ensures reply.ListRefused? ==> certificates == old(certificates)
      ensures reply.ListUnreachable? ==> certificates == []
      ensures currentFile == old(currentFile) && currentFilter == old(currentFilter)
      ensures isProcessing == old(isProcessing) && pendingDelete == old(pendingDelete)
    {
      certificates := Reloaded(certificates, reply);
    }

    /** The cards shown for the current tab and the search box text `search`. */
    function Listed(search: string): (r: seq<Metadata>)
      reads this
      ensures IsSubsequence(r, certificates)
      ensures forall c :: c in r <==> c in certificates && Shown(MetadataView(c), currentFilter, search)
    {
      FilterMembership(certificates, MetadataView, currentFilter, search);
      FilteredCertificates(certificates, MetadataView, currentFilter, search)
    }

    /** A click on a filter tab. */
    method SelectTab(filter: string)
      modifies this
      ensures currentFilter == filter
      ensures certificates == old(certificates) && currentFile == old(currentFile)
      ensures isProcessing == old(isProcessing) && pendingDelete == old(pendingDelete)
    {
      currentFilter := filter;
    }

    /** `handleFileSelect`: a PDF of at most 10 MiB whose read succeeded (`dataUrl`)
        becomes the current file; anything else leaves the state as it was. */
    method SelectFile(file: Option<FileInfo>, dataUrl: Option<string>) returns (accepted: bool)
      modifies this
      ensures accepted <==> file.Some? && AcceptsFile(file.value) && dataUrl.Some?
      ensures currentFile == if accepted then Some(SelectedFile(file.value.name, dataUrl.value)) else old(currentFile)
      ensures certificates == old(certificates) && currentFilter == old(currentFilter)
      ensures isProcessing == old(isProcessing) && pendingDelete == old(pendingDelete)
    {
      if file.None? {
        return false;
      }
      if file.value.mimeType != PdfType {
        return false;
      }
      if file.value.size > MaxFileSize {
        return false;
      }
      if dataUrl.None? {
        return false;
      }
      currentFile := Some(SelectedFile(file.value.name, dataUrl.value));
      accepted := true;
    }

    /** `handleFormSubmit` up to the request: the guards in source order, then
        `isProcessing = true`. Returns the body to post when it goes ahead. */
    method BeginUpload(form: Form) returns (request: Option<UploadBody>)
      modifies this
      ensures request.Some? <==> old(currentFile).Some? && !old(isProcessing) &&
                                 form.month != [] && form.day != [] && form.year != []
      ensures request.Some? ==> request.value == UploadBodyOf(form, old(currentFile).value)
      ensures isProcessing == (old(isProcessing) || request.Some?)
      ensures certificates == old(certificates) && currentFile == old(currentFile)
      ensures currentFilter == old(currentFilter) && pendingDelete == old(pendingDelete)
    {
      if currentFile.None? {
        return None;
      }
      if isProcessing {
        return None;
      }
      if form.month == [] || form.day == [] || form.year == [] {
        return None;
      }
      var body := UploadBodyOf(form, currentFile.value);
      isProcessing := true;
      request := Some(body);
    }

    /** `handleFormSubmit` after the request: on success reload the listing and
        reset the form; `isProcessing` ends false on every path. */
    method FinishUpload(reply: Reply, reload: ListReply)
      requires isProcessing
      modifies this
      ensures reply == Succeeded ==> certificates == Reloaded(old(certificates), reload) && currentFile == None
      ensures reply != Succeeded ==> certificates == old(certificates) && currentFile == old(currentFile)
      ensures !isProcessing
      ensures currentFilter == old(currentFilter) && pendingDelete == old(pendingDelete)
    {
      if reply == Succeeded {
        Load(reload);
        ResetForm();
      }
      isProcessing := false;
    }

    /** `resetUploadForm` (also reached by navigating to the upload page): forget
        the selected file. */
    method ResetForm()
      modifies this
      ensures currentFile == None
      ensures certificates == old(certificates) && currentFilter == old(currentFilter)
      ensures isProcessing == old(isProcessing) && pendingDelete == old(pendingDelete)
    {
      currentFile := None;
    }

    /** `deleteCertificate`: remember which document the confirmation is about. */
    method RequestDelete(id: string)
      modifies this
      ensures pendingDelete == Some(id)
      ensures certificates == old(certificates) && currentFile == old(currentFile)
      ensures isProcessing == old(isProcessing) && currentFilter == old(currentFilter)
    {
      pendingDelete := Some(id);
    }

    /** `hideDeleteModal`: forget the pending id, touching nothing else. */
    method CancelDelete()
      modifies this
      ensures pendingDelete == None
      ensures certificates == old(certificates) && currentFile == old(currentFile)
      ensures isProcessing == old(isProcessing) && currentFilter == old(currentFilter)
    {
      pendingDelete := None;
    }

    /** `confirmDelete`: with a pending id (an empty id counts as none) send the
        deletion; on success reload the listing and close the dialog, otherwise
        keep the pending id. Returns the id sent, if any. */
    method ConfirmDelete(reply: Reply, reload: ListReply) returns (sent: Option<string>)
      modifies this
      ensures sent == if old(pendingDelete).Some? && old(pendingDelete).value != [] then old(pendingDelete) else None
      ensures sent.Some? && reply == Succeeded ==>
        certificates == Reloaded(old(certificates), reload) && pendingDelete == None
      ensures sent.None? || reply != Succeeded ==>
        certificates == old(certificates) && pendingDelete == old(pendingDelete)
      ensures currentFile == old(currentFile) && isProcessing == old(isProcessing)
      ensures currentFilter == old(currentFilter)
    {
      if pendingDelete.None? || pendingDelete.value == [] {
        return None;
      }
      sent := pendingDelete;
      if reply == Succeeded {
        Load(reload);
        pendingDelete := None;
      }
    }
  }

  /** An upload from this client against the server: when the form passes the
      client's guards and the server stores the body, the reload that follows
      lists the new document with the trimmed name and the date string. */
  method UploadRoundTrip(form: Form, file: FileInfo, dataUrl: string, id: string, fileUrl: string, uploadedAt: string)
    returns (shown: seq<Metadata>)
    requires AcceptsFile(file) && file.name != [] && ',' in dataUrl
    requires Trim(form.name) != [] && Trim(form.issuer) != [] && form.category != []
    requires form.month != [] && form.day != [] && form.year != []
    ensures exists m :: m in shown && m.id == id && m.name == Trim(form.name) &&
                        m.date == DateString(form.year, form.month, form.day) && m.fileName == file.name
  {
    var client := new Client();
    var service := new Service.Empty();
    var accepted := client.SelectFile(Some(file), Some(dataUrl));
    var request := client.BeginUpload(form);
    ServerAcceptsClientBody(form, SelectedFile(file.name, dataUrl));
    var resp := service.Upload(request.value, id, fileUrl, uploadedAt, false, false);
    var listing := service.ListAll(false);
    var reply := if resp.Created? then Succeeded else Refused;
    client.FinishUpload(reply, ListOk(listing.data));
    shown := client.certificates;
    assert service.docs[id] in shown;
  }
}

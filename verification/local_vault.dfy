/**
 * The browser-only front end (frontend/script.js): the module-level state
 * (`certificates`, `currentFile`, `currentFilter`, `isProcessing`,
 * `certificateToDelete`) as the fields of one object, and the handlers that
 * change it. Local storage, the file reader, the clock and the browser's
 * date parser are parameters: `saved` is what `saveCertificates` returned,
 * `fileData` the data URL the reader produced (absent on error or timeout),
 * `stamp` the value of `Date.now()`, `dateParses` whether `new Date(dateString)`
 * was a valid date.
 */
module LocalVault {
  import opened Common
  import opened DateFields
  import opened Listing
  import opened Forms

  /** A stored certificate; `id` is the `Date.now()` stamp taken when it was added. */
  datatype LocalRecord = LocalRecord(id: nat, name: string, fileName: string, category: string,
                                     issuer: string, date: string, notes: string,
                                     fileData: string, uploadDate: string)

  function RecordView(c: LocalRecord): View
  {
    View(c.category, c.name, c.issuer, c.notes)
  }

  /** The values `handleFormSubmit` reads from the form before it starts reading the file. */
  datatype Draft = Draft(name: string, category: string, issuer: string, date: string, notes: string)

  function DraftOf(form: Form): Draft
  {
    Draft(Trim(form.name), form.category, Trim(form.issuer),
          DateString(form.year, form.month, form.day), Trim(form.notes))
  }

  /** The required-field test as the handler writes it: month and day are first
      padded with `padStart(2, '0')`, so they are never empty when compared. */
  predicate RequiredFieldsAsWritten(form: Form)
  {
    Trim(form.name) != [] && form.category != [] && Trim(form.issuer) != [] &&
    PadStart2(form.month) != [] && PadStart2(form.day) != [] && form.year != []
  }

  /** The required-field test as intended: every required field is filled in. */
  predicate RequiredFields(form: Form)
  {
    Trim(form.name) != [] && form.category != [] && Trim(form.issuer) != [] &&
    form.month != [] && form.day != [] && form.year != []
  }

  /** As written, the month and day fields take no part in the test. */
  lemma PaddedTestIgnoresMonthAndDay(form: Form)
    ensures RequiredFieldsAsWritten(form) <==>
      Trim(form.name) != [] && form.category != [] && Trim(form.issuer) != [] && form.year != []
  {
  }

  /** A form with an empty month passes the test as written and fails the intended one. */
  lemma EmptyMonthPassesAsWritten()
    ensures var form := Form("AWS Cert", "professional", "Amazon", "", "10", "2024", "");
      RequiredFieldsAsWritten(form) && !RequiredFields(form)
  {
    var form := Form("AWS Cert", "professional", "Amazon", "", "10", "2024", "");
    assert !IsSpace(form.name[0]) && !IsSpace(form.issuer[0]);
  }

  /** The two tests disagree exactly on forms whose other required fields are
      filled in but whose month or day is empty. */
  lemma AsWrittenAdmitsEmptyMonthOrDay(form: Form)
    ensures RequiredFieldsAsWritten(form) && !RequiredFields(form) <==>
      Trim(form.name) != [] && form.category != [] && Trim(form.issuer) != [] && form.year != [] &&
      (form.month == [] || form.day == [])
  {
  }

  /** The intended test refuses a form with any required field blank. */
  lemma RequiredFieldsComplete(form: Form)
    ensures RequiredFields(form) <==>
      (exists i :: 0 <= i < |form.name| && !IsSpace(form.name[i])) &&
      (exists i :: 0 <= i < |form.issuer| && !IsSpace(form.issuer[i])) &&
      form.category != [] && form.month != [] && form.day != [] && form.year != []
  {
  }

  /** The list without every record carrying `id`: `certificates.filter(c => c.id !== id)`. */
  function WithoutId(certificates: seq<LocalRecord>, id: nat): (r: seq<LocalRecord>)
    ensures IsSubsequence(r, certificates)
    ensures forall c :: c in r ==> c.id != id
    ensures forall c: LocalRecord :: c.id != id ==> multiset(r)[c] == multiset(certificates)[c]
  {
    Select(certificates, (c: LocalRecord) => c.id != id)
  }

  class Vault {
    var certificates: seq<LocalRecord>
    var currentFile: Option<FileInfo>
    var currentFilter: string
    var isProcessing: bool
    var pendingDelete: Option<nat>

    /** Start-up: `loadCertificates` keeps the stored array when there is one that
        parses (`stored`), and the empty list otherwise. */
    constructor (stored: Option<seq<LocalRecord>>)
      ensures certificates == (if stored.Some? then stored.value else [])
      ensures currentFile == None && currentFilter == "all" && !isProcessing && pendingDelete == None
    {
      certificates := if stored.Some? then stored.value else [];
      currentFile := None;
      currentFilter := "all";
      isProcessing := false;
      pendingDelete := None;
    }

    /** The cards shown for the current tab and the search box text `search`. */
    function Listed(search: string): (r: seq<LocalRecord>)
      reads this
      ensures IsSubsequence(r, certificates)
      ensures forall c :: c in r <==> c in certificates && Shown(RecordView(c), currentFilter, search)
    {
      FilterMembership(certificates, RecordView, currentFilter, search);
      FilteredCertificates(certificates, RecordView, currentFilter, search)
    }

    /** A click on a filter tab. */
    method SelectTab(filter: string)
      modifies this
      ensures currentFilter == filter
      ensures certificates == old(certificates) && currentFile == old(currentFile)
      ensures isProcessing == old(isProcessing) && pendingDelete == old(pendingDelete)
    {
      currentFilter := filter;
    }

    /** `handleFileSelect`: the file becomes the current one only when it is a PDF
        of at most 10 MiB; otherwise nothing changes. */
    method SelectFile(file: Option<FileInfo>) returns (accepted: bool)
      modifies this
      ensures accepted <==> file.Some? && AcceptsFile(file.value)
      ensures currentFile == if accepted then file else old(currentFile)
      ensures certificates == old(certificates) && currentFilter == old(currentFilter)
      ensures isProcessing == old(isProcessing) && pendingDelete == old(pendingDelete)
    {
      if file.None? {
        return false;
      }
      if file.value.mimeType != PdfType {
        return false;
      }
      if file.value.size > MaxFileSize {
        return false;
      }
      currentFile := file;
      accepted := true;
    }

    /** `handleFormSubmit` up to the file read: the guards in source order, then
        `setLoadingState(true)`. Returns the values read from the form when it goes ahead. */
    method BeginSubmit(form: Form, dateParses: bool) returns (draft: Option<Draft>)
      modifies this
      ensures draft.Some? <==> !old(isProcessing) && old(currentFile).Some? && RequiredFields(form) &&
                               !YearOutOfRange(form.year) && dateParses
      ensures draft.Some? ==> draft.value == DraftOf(form)
      ensures isProcessing == (old(isProcessing) || draft.Some?)
      ensures certificates == old(certificates) && currentFile == old(currentFile)
      ensures currentFilter == old(currentFilter) && pendingDelete == old(pendingDelete)
    {
      if isProcessing {
        return None;
      }
      if currentFile.None? {
        return None;
      }
      if !RequiredFields(form) {
        return None;
      }
      if YearOutOfRange(form.year) {
        return None;
      }
      if !dateParses {
        return None;
      }
      isProcessing := true;
      draft := Some(DraftOf(form));
    }

    /** `handleFormSubmit` after the file read: the new record goes to the front,
        and is taken off again when saving fails; `isProcessing` ends false on every path. */
    method FinishSubmit(draft: Draft, fileData: Option<string>, stamp: nat, uploadDate: string, saved: bool)
      returns (added: bool)
      requires isProcessing
      modifies this
      ensures added <==> fileData.Some? && old(currentFile).Some? && saved
      ensures added ==> certificates == [LocalRecord(stamp, draft.name, old(currentFile).value.name,
        draft.category, draft.issuer, draft.date, draft.notes, fileData.value, uploadDate)] + old(certificates)
      ensures added ==> currentFile == None
      ensures !added ==> certificates == old(certificates) && currentFile == old(currentFile)
      ensures !isProcessing
      ensures currentFilter == old(currentFilter) && pendingDelete == old(pendingDelete)
    {
      if fileData.None? || currentFile.None? {
        isProcessing := false;
        return false;
      }
      var certificate := LocalRecord(stamp, draft.name, currentFile.value.name, draft.category,
                                     draft.issuer, draft.date, draft.notes, fileData.value, uploadDate);
      certificates := [certificate] + certificates;
      if !saved {
        certificates := certificates[1..];
        isProcessing := false;
        return false;
      }
      ResetForm();
      isProcessing := false;
      added := true;
    }

    /** `resetUploadForm` (also reached by navigating to the upload page and by the
        preview's remove button): forget the selected file. */
    method ResetForm()
      modifies this
      ensures currentFile == None
      ensures certificates == old(certificates) && currentFilter == old(currentFilter)
      ensures isProcessing == old(isProcessing) && pendingDelete == old(pendingDelete)
    {
      currentFile := None;
    }

    /** `deleteCertificate`: remember which record the confirmation is about. */
    method RequestDelete(id: nat)
      modifies this
      ensures pendingDelete == Some(id)
      ensures certificates == old(certificates) && currentFile == old(currentFile)
      ensures isProcessing == old(isProcessing) && currentFilter == old(currentFilter)
    {
      pendingDelete := Some(id);
    }

    /** `hideDeleteModal`: forget the pending id, touching nothing else. */
    method CancelDelete()
      modifies this
      ensures pendingDelete == None
      ensures certificates == old(certificates) && currentFile == old(currentFile)
      ensures isProcessing == old(isProcessing) && currentFilter == old(currentFilter)
    {
      pendingDelete := None;
    }

    /** `confirmDelete`: with a pending id (a falsy 0 counts as none), drop every
        record with that id and clear the pending id; without one, do nothing. */
    method ConfirmDelete()
      modifies this
      ensures old(pendingDelete).Some? && old(pendingDelete).value != 0 ==>
        certificates == WithoutId(old(certificates), old(pendingDelete).value) && pendingDelete == None
      ensures old(pendingDelete).None? || old(pendingDelete).value == 0 ==>
        certificates == old(certificates) && pendingDelete == old(pendingDelete)
      ensures currentFile == old(currentFile) && isProcessing == old(isProcessing)
      ensures currentFilter == old(currentFilter)
    {
      if pendingDelete.Some? && pendingDelete.value != 0 {
        certificates := WithoutId(certificates, pendingDelete.value);
        pendingDelete := None;
      }
    }
  }

  /** One submission on a vault loaded from `stored`: a PDF is selected, then
      `handleFormSubmit` runs to the end. The list gains the new record at its front
      exactly when the form passes the guards and saving succeeds; otherwise it is
      the stored list unchanged. */
  method SubmitRoundTrip(stored: seq<LocalRecord>, form: Form, file: FileInfo, dateParses: bool,
                         fileData: string, stamp: nat, uploadDate: string, saved: bool)
    returns (listed: seq<LocalRecord>)
    requires AcceptsFile(file)
    ensures listed == if RequiredFields(form) && !YearOutOfRange(form.year) && dateParses && saved
      then [LocalRecord(stamp, Trim(form.name), file.name, form.category, Trim(form.issuer),
                        DateString(form.year, form.month, form.day), Trim(form.notes), fileData, uploadDate)] + stored
      else stored
  {
    var vault := new Vault(Some(stored));
    var accepted := vault.SelectFile(Some(file));
    var draft := vault.BeginSubmit(form, dateParses);
    if draft.Some? {
      var added := vault.FinishSubmit(draft.value, Some(fileData), stamp, uploadDate, saved);
    }
    listed := vault.certificates;
  }
}

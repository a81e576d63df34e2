/**
 * The server's certificate controller (backend/controllers/certificateController.js)
 * over its two stores: the blob container, a map from blob name to file content,
 * and the document container, a map from certificate id to its metadata. The
 * uuid, the blob URL, the timestamp and every store failure are parameters; the
 * base64 payload is stored as text, its decoding being left to the store.
 */
module Controller {
  import opened Common

  /** The JSON body of `POST /upload`; a field the client left out is `None`. */
  datatype UploadBody = UploadBody(name: Option<string>, issuer: Option<string>, date: Option<string>,
                                   category: Option<string>, notes: Option<string>,
                                   fileData: Option<string>, fileName: Option<string>)

  /** JavaScript truthiness of a string field: present and not empty. */
  predicate Present(f: Option<string>)
  {
    f.Some? && f.value != []
  }

  /** The handler's `!name || !issuer || !date || !category || !fileData || !fileName` test, negated. */
  predicate HasRequiredFields(b: UploadBody)
  {
    Present(b.name) && Present(b.issuer) && Present(b.date) && Present(b.category) &&
    Present(b.fileData) && Present(b.fileName)
  }

  /** A certificate's metadata document. */
  datatype Metadata = Metadata(id: string, name: string, issuer: string, date: string,
                               category: string, notes: string, fileName: string,
                               blobName: string, fileUrl: string, uploadedAt: string)

  /** A stored blob: the base64 payload and the content type it was uploaded with. */
  datatype Blob = Blob(base64: string, contentType: string)

  datatype Response =
    | Created(record: Metadata)
    | Listed(count: nat, data: seq<Metadata>)
    | Found(record: Metadata)
    | Deleted
    | Attachment(content: Blob, contentType: string, disposition: string)
    | BadRequest
    | NotFound
    | ServerError
  {
    function Status(): int
    {
      match this
      case Created(_) => 201
      case BadRequest => 400
      case NotFound => 404
      case ServerError => 500
      case _ => 200
    }
  }

  /** The blob name `${id}-${fileName}`. */
  function BlobKey(id: string, fileName: string): string
  {
    id + "-" + fileName
  }

  /** Ids of one length (uuids are 36 characters) give different blob names to
      different ids, so one upload never lands on another's blob. */
  lemma BlobKeyInjective(id1: string, fileName1: string, id2: string, fileName2: string)
    requires |id1| == |id2|
    ensures BlobKey(id1, fileName1) == BlobKey(id2, fileName2) <==> id1 == id2 && fileName1 == fileName2
  {
    if BlobKey(id1, fileName1) == BlobKey(id2, fileName2) {
      var k := BlobKey(id1, fileName1);
      assert k[..|id1|] == id1 && k[..|id2|] == id2;
      assert k[|id1| + 1..] == fileName1 && k[|id2| + 1..] == fileName2;
    }
  }

  /** The text before the first comma of `s`, or all of it. */
  function BeforeComma(s: string): (r: string)
    ensures ',' !in r && r <= s
    ensures ',' !in s ==> r == s
    ensures ',' in s ==> |r| < |s| && s[|r|] == ','
  {
    if s == [] || s[0] == ',' then [] else [s[0]] + BeforeComma(s[1..])
  }

  /** `fileData.split(',')[1]`: the text between the first and the second comma
      (or the end); absent (`undefined`) when there is no comma. */
  function Payload(fileData: string): (r: Option<string>)
    ensures r.None? <==> ',' !in fileData
    ensures r.Some? ==> ',' !in r.value
  {
    var head := BeforeComma(fileData);
    if |head| < |fileData| then Some(BeforeComma(fileData[|head| + 1..])) else None
  }

  /** The payload is the second comma-separated field: what follows the first
      comma, up to the next comma or the end. */
  lemma PayloadIsSecondField(header: string, rest: string)
    requires ',' !in header
    ensures Payload(header + "," + rest) == Some(BeforeComma(rest))
  {
    var s := header + "," + rest;
    assert s == header + ("," + rest);
    BeforeCommaOfPrefix(header, "," + rest);
    assert BeforeComma(s) == header && |header| < |s|;
    assert s[|header| + 1..] == rest;
  }

  /** The payload of a data URL `header,body` is its body. */
  lemma PayloadOfDataUrl(header: string, body: string)
    requires ',' !in header && ',' !in body
    ensures Payload(header + "," + body) == Some(body)
  {
    PayloadIsSecondField(header, body);
  }

  lemma {:induction false} BeforeCommaOfPrefix(a: string, b: string)
    requires ',' !in a && b != [] && b[0] == ','
    ensures BeforeComma(a + b) == a
  {
    if a == [] {
      assert a + b == b;
    } else {
      assert (a + b)[1..] == a[1..] + b;
      BeforeCommaOfPrefix(a[1..], b);
    }
  }

  /** The metadata document the upload builds. */
  function NewMetadata(body: UploadBody, id: string, fileUrl: string, uploadedAt: string): (m: Metadata)
    requires HasRequiredFields(body)
    ensures m.id == id && m.blobName == BlobKey(m.id, m.fileName)
    ensures m.name == body.name.value && m.issuer == body.issuer.value && m.date == body.date.value
    ensures m.category == body.category.value && m.fileName == body.fileName.value
    ensures m.fileUrl == fileUrl && m.uploadedAt == uploadedAt
    ensures m.notes == (if Present(body.notes) then body.notes.value else "")
    ensures m.name != [] && m.issuer != [] && m.date != [] && m.category != [] && m.fileName != []
  {
    Metadata(id, body.name.value, body.issuer.value, body.date.value, body.category.value,
             if Present(body.notes) then body.notes.value else "",
             body.fileName.value, BlobKey(id, body.fileName.value), fileUrl, uploadedAt)
  }

  /** Every document is stored under its own id and names its blob as `${id}-${fileName}`. */
  predicate Keyed(docs: map<string, Metadata>)
  {
    forall k :: k in docs ==> docs[k].id == k && docs[k].blobName == BlobKey(k, docs[k].fileName)
  }

  /** The `Content-Disposition` header of a download. */
  function Disposition(fileName: string): string
  {
    "attachment; filename=\"" + fileName + "\""
  }

  class Service {
    var blobs: map<string, Blob>
    var docs: map<string, Metadata>

    predicate Valid()
      reads this
    {
      Keyed(docs)
    }

    constructor Empty()
      ensures Valid() && blobs == map[] && docs == map[]
    {
      blobs := map[];
      docs := map[];
    }

    /** `uploadCertificate`: validate, decode, write the blob, then the metadata.
        A failure after the blob write leaves the blob behind. */
    method Upload(body: UploadBody, id: string, fileUrl: string, uploadedAt: string,
                  blobWriteFails: bool, docWriteFails: bool) returns (resp: Response)
      requires Valid()
      modifies this
      ensures Valid()
      ensures !HasRequiredFields(body) ==> resp == BadRequest && blobs == old(blobs) && docs == old(docs)
      ensures resp == BadRequest <==> !HasRequiredFields(body)
      ensures HasRequiredFields(body) && Payload(body.fileData.value).None? ==>
        resp == ServerError && blobs == old(blobs) && docs == old(docs)
      ensures HasRequiredFields(body) && Payload(body.fileData.value).Some? ==>
        blobs == if blobWriteFails then old(blobs)
                 else old(blobs)[BlobKey(id, body.fileName.value) := Blob(Payload(body.fileData.value).value, PdfType)]
      ensures resp.Created? <==> HasRequiredFields(body) && Payload(body.fileData.value).Some? &&
                                 !blobWriteFails && !docWriteFails && id !in old(docs)
      ensures resp.Created? ==> resp.record == NewMetadata(body, id, fileUrl, uploadedAt)
      ensures resp.Created? ==> docs == old(docs)[id := resp.record] && |docs| == |old(docs)| + 1
      ensures !resp.Created? ==> docs == old(docs) && resp in {BadRequest, ServerError}
    {
      if !HasRequiredFields(body) {
        return BadRequest;
      }
      var blobName := BlobKey(id, body.fileName.value);
      var payload := Payload(body.fileData.value);
      if payload.None? {
        return ServerError;
      }
      if blobWriteFails {
        return ServerError;
      }
      blobs := blobs[blobName := Blob(payload.value, PdfType)];
      var metadata := NewMetadata(body, id, fileUrl, uploadedAt);
      if docWriteFails || id in docs {
        return ServerError;
      }
      docs := docs[id := metadata];
      resp := Created(metadata);
    }

    /** `getAllCertificates`: every document once, in the store's enumeration order. */
    method ListAll(readFails: bool) returns (resp: Response)
      requires Valid()
      ensures readFails ==> resp == ServerError
      ensures !readFails ==> resp.Listed? && resp.count == |resp.data| == |docs|
      ensures !readFails ==> forall k :: k in docs ==> docs[k] in resp.data
      ensures !readFails ==> forall m :: m in resp.data ==> m.id in docs && docs[m.id] == m
      ensures !readFails ==> forall i, j :: 0 <= i < j < |resp.data| ==> resp.data[i].id != resp.data[j].id
    {
      if readFails {
        return ServerError;
      }
      var pending := docs.Keys;
      var data: seq<Metadata> := [];
      while pending != {}
        invariant pending <= docs.Keys
        invariant |data| + |pending| == |docs|
        invariant forall k :: k in docs && k !in pending ==> docs[k] in data
        invariant forall m :: m in data ==> m.id in docs && m.id !in pending && docs[m.id] == m
        invariant forall i, j :: 0 <= i < j < |data| ==> data[i].id != data[j].id
        decreases |pending|
      {
        var k :| k in pending;
        data := data + [docs[k]];
        pending := pending - {k};
      }
      resp := Listed(|data|, data);
    }

    /** `getCertificate`: the document stored under `id`, or 404. */
    method Get(id: string, readFails: bool) returns (resp: Response)
      requires Valid()
      ensures readFails ==> resp == ServerError
      ensures !readFails && id !in docs ==> resp == NotFound
      ensures !readFails && id in docs ==> resp.Found? && resp.record == docs[id] && resp.record.id == id
    {
      if readFails {
        return ServerError;
      }
      if id !in docs {
        return NotFound;
      }
      resp := Found(docs[id]);
    }

    /** `deleteCertificate`: look the document up, delete its blob, then the document.
        Deleting a blob that is not there fails, and so does the request. */
    method Delete(id: string, readFails: bool, blobDeleteFails: bool, docDeleteFails: bool)
      returns (resp: Response)
      requires Valid()
      modifies this
      ensures Valid()
      ensures readFails ==> resp == ServerError && blobs == old(blobs) && docs == old(docs)
      ensures !readFails && id !in old(docs) ==> resp == NotFound && blobs == old(blobs) && docs == old(docs)
      ensures !readFails && id in old(docs) ==>
        var key := old(docs)[id].blobName;
        if key !in old(blobs) || blobDeleteFails then
          resp == ServerError && blobs == old(blobs) && docs == old(docs)
        else
          blobs == old(blobs) - {key} &&
          if docDeleteFails then resp == ServerError && docs == old(docs)
          else resp == Deleted && docs == old(docs) - {id}
    {
      if readFails {
        return ServerError;
      }
      if id !in docs {
        return NotFound;
      }
      var record := docs[id];
      if record.blobName !in blobs || blobDeleteFails {
        return ServerError;
      }
      blobs := blobs - {record.blobName};
      if docDeleteFails {
        return ServerError;
      }
      docs := docs - {id};
      resp := Deleted;
    }

    /** `downloadCertificate`: the record's blob, served as a PDF attachment under its file name. */
    method Download(id: string, readFails: bool, downloadFails: bool) returns (resp: Response)
      requires Valid()
      ensures readFails ==> resp == ServerError
      ensures !readFails && id !in docs ==> resp == NotFound
      ensures !readFails && id in docs ==>
        var record := docs[id];
        if record.blobName in blobs && !downloadFails then
          resp == Attachment(blobs[record.blobName], PdfType, Disposition(record.fileName))
        else resp == ServerError
    {
      if readFails {
        return ServerError;
      }
      if id !in docs {
        return NotFound;
      }
      var record := docs[id];
      if record.blobName !in blobs || downloadFails {
        return ServerError;
      }
      resp := Attachment(blobs[record.blobName], PdfType, Disposition(record.fileName));
    }
  }

  /** A certificate uploaded to empty stores can be read back, downloaded with the
      uploaded payload and deleted, after which it is not found. */
  method UploadLifecycle(body: UploadBody, id: string, fileUrl: string, uploadedAt: string)
    returns (created: Response, fetched: Response, downloaded: Response, deleted: Response, afterwards: Response)
    requires HasRequiredFields(body) && Payload(body.fileData.value).Some?
    ensures created.Created? && created.record.id == id && created.Status() == 201
    ensures fetched == Found(created.record)
    ensures downloaded == Attachment(Blob(Payload(body.fileData.value).value, PdfType), PdfType,
                                     Disposition(body.fileName.value))
    ensures deleted == Deleted
    ensures afterwards == NotFound
  {
    var service := new Service.Empty();
    created := service.Upload(body, id, fileUrl, uploadedAt, false, false);
    fetched := service.Get(id, false);
    downloaded := service.Download(id, false, false);
    deleted := service.Delete(id, false, false, false);
    afterwards := service.Get(id, false);
  }

  /** An upload without file data is refused with 400 and the listing stays empty. */
  method MissingFileLifecycle(body: UploadBody, id: string, fileUrl: string, uploadedAt: string)
    returns (uploaded: Response, listed: Response)
    requires body.fileData.None?
    ensures uploaded == BadRequest && uploaded.Status() == 400
    ensures listed.Listed? && listed.count == 0
  {
    var service := new Service.Empty();
    uploaded := service.Upload(body, id, fileUrl, uploadedAt, false, false);
    listed := service.ListAll(false);
  }
}

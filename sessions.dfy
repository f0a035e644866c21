/**
 * The process-wide session store (`sessions`) and the handlers that read or
 * change it: upload, data, download, the session list and delete. Each
 * handler's request parameters are arguments and its HTTP status is the
 * variant of the response it returns.
 */
module Sessions {
  import opened Wrappers
  import opened PyBuiltins
  import opened Ritten
  import opened Query
  import opened Export

  type SessionId = string

  /** One stored upload; `totalRecords` is the record count cached at upload time. */
  datatype Session = Session(filename: string, uploadTime: string, data: seq<Rit>, totalRecords: nat)

  /** What `file.read().decode("utf-8")` and `ET.fromstring` make of the uploaded bytes. */
  datatype Content = NotUtf8(reason: string) | Decoded(xml: Xml)

  /** The multipart part named "file": its client-side file name and its content. */
  datatype FilePart = FilePart(filename: string, content: Content)

  const NotFoundMessage: string := "Sessie niet gevonden"
  const NoFileMessage: string := "Geen bestand gevonden"
  const NoFilenameMessage: string := "Geen bestand geselecteerd"
  const NotXmlMessage: string := "Alleen XML bestanden zijn toegestaan"
  const UploadedMessage: string := "Bestand succesvol geüpload en verwerkt"
  const DeletedMessage: string := "Sessie verwijderd"

  /** 200 with the new session, or 400 with the reason. */
  datatype UploadResponse =
    | Uploaded(sessionId: SessionId, filename: string, totalRecords: nat, message: string)
    | UploadRejected(error: string)

  datatype Pagination = Pagination(page: int, perPage: int, total: nat, pages: int)

  datatype SessionInfo = SessionInfo(filename: string, uploadTime: string, totalRecords: nat)

  /** 200 with one page, 404 for an unknown session, or 500 when `per_page` is 0 (the `//` raises). */
  datatype DataResponse =
    | DataPage(data: seq<Rit>, pagination: Pagination, sessionInfo: SessionInfo)
    | DataNotFound(error: string)
    | DataServerError

  /** 200 with the workbook and its download name, or 404 for an unknown session. */
  datatype DownloadResponse =
    | Workbook(filename: string, sheet: Sheet)
    | DownloadNotFound(error: string)

  /** One entry of the session list. */
  datatype SessionSummary = SessionSummary(sessionId: SessionId, filename: string, uploadTime: string, totalRecords: nat)

  /** 200 after removing the session, or 404 for an unknown one. */
  datatype DeleteResponse = Deleted(message: string) | DeleteNotFound(error: string)

  /** A file part is present and its non-empty name ends in ".xml", in any case (lines 97-105). */
  predicate NamedXml(file: Option<FilePart>) {
    file.Some? && file.value.filename != "" && EndsWith(Lower(file.value.filename), XmlExtension)
  }

  /**
   * What decides an upload (lines 97-111, 131-132): the file name and the
   * parsed records, or the message of the 400 answer.
   */
  function Accept(file: Option<FilePart>): (r: Result<(string, seq<Rit>), string>)
    ensures r.Success? <==>
      && file.Some?
      && file.value.filename != ""
      && EndsWith(Lower(file.value.filename), XmlExtension)
      && file.value.content.Decoded?
      && file.value.content.xml.WellFormed?
    ensures r.Success? ==> r.value == (file.value.filename, RittenOf(file.value.content.xml.root))
    ensures file.None? ==> r == Failure(NoFileMessage)
    ensures file.Some? && file.value.filename == "" ==> r == Failure(NoFilenameMessage)
    ensures file.Some? && file.value.filename != "" && !EndsWith(Lower(file.value.filename), XmlExtension) ==>
      r == Failure(NotXmlMessage)
    ensures NamedXml(file) && file.value.content.NotUtf8? ==> r == Failure(file.value.content.reason)
    ensures NamedXml(file) && file.value.content.Decoded? && file.value.content.xml.Malformed? ==>
      r == Failure("XML parsing error: " + file.value.content.xml.reason)
  {
    if file.None? then Failure(NoFileMessage)
    else if file.value.filename == "" then Failure(NoFilenameMessage)
    else if !EndsWith(Lower(file.value.filename), XmlExtension) then Failure(NotXmlMessage)
    else
      match file.value.content
      case NotUtf8(reason) => Failure(reason)
      case Decoded(Malformed(reason)) => Failure("XML parsing error: " + reason)
      case Decoded(WellFormed(root)) => Success((file.value.filename, RittenOf(root)))
  }

  /** A sequence without repeats has as many distinct elements as positions. */
  lemma {:induction false} DistinctCardinality<T>(s: seq<T>)
    requires forall i, j :: 0 <= i < j < |s| ==> s[i] != s[j]
    ensures |set x | x in s| == |s|
  {
    if s != [] {
      var rest := s[1..];
      assert forall i, j :: 0 <= i < j < |rest| ==> rest[i] != rest[j] by {
        forall i, j | 0 <= i < j < |rest| ensures rest[i] != rest[j] {
          assert rest[i] == s[i + 1] && rest[j] == s[j + 1];
        }
      }
      DistinctCardinality(rest);
      assert (set x | x in s) == {s[0]} + (set x | x in rest);
      assert s[0] !in rest by {
        forall k | 0 <= k < |rest| ensures rest[k] != s[0] {
          assert rest[k] == s[k + 1];
        }
      }
    }
  }

  /** `s` with every occurrence of `x` removed, the rest in order. */
  function Without(s: seq<SessionId>, x: SessionId): (r: seq<SessionId>)
    ensures forall y :: y in r <==> y in s && y != x
  {
    if s == [] then []
    else (if s[0] == x then [] else [s[0]]) + Without(s[1..], x)
  }

  /** Removing an id from a sequence without repeats leaves one without repeats. */
  lemma {:induction false} WithoutKeepsDistinct(s: seq<SessionId>, x: SessionId)
    requires forall i, j :: 0 <= i < j < |s| ==> s[i] != s[j]
    ensures forall i, j :: 0 <= i < j < |Without(s, x)| ==> Without(s, x)[i] != Without(s, x)[j]
  {
    if s != [] {
      var rest := s[1..];
      forall i, j | 0 <= i < j < |rest| ensures rest[i] != rest[j] {
        assert rest[i] == s[i + 1] && rest[j] == s[j + 1];
      }
      WithoutKeepsDistinct(rest, x);
      assert s[0] !in Without(rest, x) by {
        forall k | 0 <= k < |rest| ensures rest[k] != s[0] {
          assert rest[k] == s[k + 1];
        }
      }
    }
  }

  /** The session registry: a dict from session id to session, iterated in insertion order. */
  class SessionStore {
    var sessions: map<SessionId, Session>
    /** The ids in the order they were first stored, as the dict iterates them. */
    var order: seq<SessionId>

    ghost predicate Valid()
      reads this
    {
      && (forall i, j :: 0 <= i < j < |order| ==> order[i] != order[j])
      && (forall id :: id in sessions <==> id in order)
      && (forall id :: id in sessions ==> sessions[id].totalRecords == |sessions[id].data|)
    }

    /** The empty store of a freshly started process. */
    constructor ()
      ensures Valid() && sessions == map[] && order == []
    {
      sessions := map[];
      order := [];
    }

    /**
     * `upload_xml`: a rejected upload answers 400 and changes nothing; an
     * accepted one stores the parsed records under `freshId` (the caller's
     * `uuid4()`) with upload time `now`, overwriting in place as a dict
     * assignment does if the id were already taken.
     */
    method Upload(file: Option<FilePart>, freshId: SessionId, now: string) returns (resp: UploadResponse)
      requires Valid()
      modifies this
      ensures Valid()
      ensures Accept(file).Failure? ==>
        resp == UploadRejected(Accept(file).error) && sessions == old(sessions) && order == old(order)
      ensures Accept(file).Success? ==>
        var name, data := Accept(file).value.0, Accept(file).value.1;
        && resp == Uploaded(freshId, name, |data|, UploadedMessage)
        && sessions == old(sessions)[freshId := Session(name, now, data, |data|)]
        && order == if freshId in old(sessions) then old(order) else old(order) + [freshId]
    {
      if file.None? {
        return UploadRejected(NoFileMessage);
      }
      var part := file.value;
      if part.filename == "" {
        return UploadRejected(NoFilenameMessage);
      }
      if !EndsWith(Lower(part.filename), XmlExtension) {
        return UploadRejected(NotXmlMessage);
      }
      if part.content.NotUtf8? {
        return UploadRejected(part.content.reason);
      }
      var parsed := ParseXmlToData(part.content.xml);
      if parsed.Failure? {
        return UploadRejected(parsed.error);
      }
      var data := parsed.value;
      if freshId !in sessions {
        order := order + [freshId];
      }
      sessions := sessions[freshId := Session(part.filename, now, data, |data|)];
      resp := Uploaded(freshId, part.filename, |data|, UploadedMessage);
    }

    /**
     * `get_data`: 404 for an unknown id; otherwise the matches of `search`,
     * the requested page of them and the page count, with `page` and
     * `per_page` defaulting to 1 and 50; `per_page == 0` ends in a 500.
     */
    method GetData(id: SessionId, pageArg: Option<int>, perPageArg: Option<int>, search: string)
      returns (resp: DataResponse)
      ensures id !in sessions ==> resp == DataNotFound(NotFoundMessage)
      ensures id in sessions && perPageArg.GetOr(DefaultPerPage) == 0 ==> resp == DataServerError
      ensures id in sessions && perPageArg.GetOr(DefaultPerPage) != 0 ==>
        var s := sessions[id];
        var page, perPage := pageArg.GetOr(DefaultPage), perPageArg.GetOr(DefaultPerPage);
        var matched := Matches(s.data, search);
        resp == DataPage(
          Window(matched, page, perPage),
          Pagination(page, perPage, |matched|, PageCount(|matched|, perPage)),
          SessionInfo(s.filename, s.uploadTime, s.totalRecords))
    {
      if id !in sessions {
        return DataNotFound(NotFoundMessage);
      }
      var s := sessions[id];
      var page := pageArg.GetOr(DefaultPage);
      var perPage := perPageArg.GetOr(DefaultPerPage);
      var matched := Search(s.data, search);
      var total := |matched|;
      var start := (page - 1) * perPage;
      var paginated := Slice(matched, start, start + perPage);
      if perPage == 0 {
        return DataServerError;
      }
      var pages := FloorDiv(total + perPage - 1, perPage);
      resp := DataPage(paginated, Pagination(page, perPage, total, pages),
                       SessionInfo(s.filename, s.uploadTime, s.totalRecords));
    }

    /**
     * `download_excel`: 404 for an unknown id; otherwise every record of the
     * session, in order and whatever was searched or paged before, one row
     * each under the Dutch titles, offered as the renamed file.
     */
    function Download(id: SessionId): (r: DownloadResponse)
      requires Valid()
      reads this
      ensures r.DownloadNotFound? <==> id !in sessions
      ensures r.DownloadNotFound? ==> r.error == NotFoundMessage
      ensures r.Workbook? ==>
        && r.filename == ExcelFilename(sessions[id].filename)
        && r.sheet.name == SheetName
        && |r.sheet.rows| == sessions[id].totalRecords
        && (forall i :: 0 <= i < |r.sheet.rows| ==> r.sheet.rows[i] == Values(sessions[id].data[i]))
        && r.sheet.headers == (if sessions[id].data == [] then [] else DutchTitles)
    {
      if id !in sessions then DownloadNotFound(NotFoundMessage)
      else
        var s := sessions[id];
        HeadersAreDutchTitles(s.data);
        Workbook(ExcelFilename(s.filename), ToSheet(s.data))
    }

    /** `get_sessions`: one summary per stored session, in insertion order. */
    method ListSessions() returns (list: seq<SessionSummary>)
      requires Valid()
      ensures |list| == |sessions| == |order|
      ensures forall i :: 0 <= i < |list| ==>
        && list[i].sessionId == order[i] && order[i] in sessions
        && list[i] == SessionSummary(order[i], sessions[order[i]].filename,
                                     sessions[order[i]].uploadTime, sessions[order[i]].totalRecords)
      ensures forall id :: id in sessions <==> exists i :: 0 <= i < |list| && list[i].sessionId == id
    {
      list := [];
      for k := 0 to |order|
        invariant |list| == k
        invariant forall i :: 0 <= i < k ==>
          list[i] == SessionSummary(order[i], sessions[order[i]].filename,
                                    sessions[order[i]].uploadTime, sessions[order[i]].totalRecords)
      {
        var id := order[k];
        var s := sessions[id];
        list := list + [SessionSummary(id, s.filename, s.uploadTime, s.totalRecords)];
      }
      DistinctCardinality(order);
      assert sessions.Keys == set x | x in order;
      forall id | id in sessions ensures exists i :: 0 <= i < |list| && list[i].sessionId == id {
        var i :| 0 <= i < |order| && order[i] == id;
        assert list[i].sessionId == id;
      }
    }

    /** `delete_session`: 404 and no change for an unknown id; otherwise exactly that session is removed. */
    method Delete(id: SessionId) returns (resp: DeleteResponse)
      requires Valid()
      modifies this
      ensures Valid()
      ensures id !in old(sessions) ==>
        resp == DeleteNotFound(NotFoundMessage) && sessions == old(sessions) && order == old(order)
      ensures id in old(sessions) ==>
        resp == Deleted(DeletedMessage) && sessions == old(sessions) - {id} && order == Without(old(order), id)
    {
      if id !in sessions {
        return DeleteNotFound(NotFoundMessage);
      }
      WithoutKeepsDistinct(order, id);
      sessions := sessions - {id};
      order := Without(order, id);
      resp := Deleted(DeletedMessage);
    }
  }

  /** After a delete, the id is unknown to the data, download and delete handlers alike. */
  method DeletedSessionIsGone(store: SessionStore, id: SessionId)
    returns (data: DataResponse, download: DownloadResponse, again: DeleteResponse)
    requires store.Valid()
    modifies store
    ensures store.Valid() && id !in store.sessions
    ensures data == DataNotFound(NotFoundMessage)
    ensures download == DownloadNotFound(NotFoundMessage)
    ensures again == DeleteNotFound(NotFoundMessage)
  {
    var first := store.Delete(id);
    data := store.GetData(id, None, None, "");
    download := store.Download(id);
    again := store.Delete(id);
  }
}

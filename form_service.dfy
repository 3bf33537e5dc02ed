/** Forms and their submissions: form maintenance, public submission to an active form, the
    per-form submission list and its CSV export. */
module Forms {
  import opened Wrappers
  import opened Strings
  import opened Queries

  datatype Form = Form(name: string, description: Option<string>, fieldsJson: string, isActive: bool,
                       userId: int, createdAt: int, updatedAt: int)

  datatype FormRequest = FormRequest(name: string, description: Option<string>, fieldsJson: string, isActive: bool)

  datatype Submission = Submission(formId: int, dataJson: string, ipAddress: Option<string>,
                                   userAgent: Option<string>, submittedAt: int)

  datatype SubmissionResponse = SubmissionResponse(id: int, formId: int, formName: string, dataJson: string,
                                                   ipAddress: Option<string>, userAgent: Option<string>,
                                                   submittedAt: int)

  datatype FormResponse = FormResponse(id: int, form: Form, submissionCount: nat)

  // ----- listing -----

  function OfForm(formId: int): ((int, Submission)) -> bool {
    (row: (int, Submission)) => row.1.formId == formId
  }

  /** Newest first. */
  predicate SubmittedNoEarlier(a: (int, Submission), b: (int, Submission)) {
    a.1.submittedAt >= b.1.submittedAt
  }

  /** A form's submissions, newest first. */
  function SubmissionsOf(subs: map<int, Submission>, formId: int): seq<(int, Submission)> {
    Query(subs, OfForm(formId), SubmittedNoEarlier)
  }

  /** The list holds exactly the form's submissions, once each, newest first. */
  lemma SubmissionsOfSpec(subs: map<int, Submission>, formId: int)
    ensures var r := SubmissionsOf(subs, formId);
            && (forall i :: 0 <= i < |r| ==> r[i].0 in subs && r[i].1 == subs[r[i].0] && r[i].1.formId == formId)
            && (forall k :: k in subs && subs[k].formId == formId ==> (k, subs[k]) in r)
            && Distinct(r)
            && (forall i, j :: 0 <= i < j < |r| ==> r[i].1.submittedAt >= r[j].1.submittedAt)
  {
    var p := OfForm(formId);
    var r := SubmissionsOf(subs, formId);
    QuerySound(subs, p, SubmittedNoEarlier);
    forall i | 0 <= i < |r| ensures r[i].1.formId == formId {
      assert p(r[i]);
    }
    forall k | k in subs && subs[k].formId == formId ensures (k, subs[k]) in r {
      assert p((k, subs[k]));
      QueryComplete(subs, p, SubmittedNoEarlier);
    }
    QueryDistinct(subs, p, SubmittedNoEarlier);
    QuerySorted(subs, p, SubmittedNoEarlier);
  }

  /** The submission count of a form is the number of its submissions. */
  lemma SubmissionCount(subs: map<int, Submission>, formId: int)
    ensures |SubmissionsOf(subs, formId)| == |set k | k in subs && subs[k].formId == formId|
  {
    QueryCount(subs, OfForm(formId), SubmittedNoEarlier, set k | k in subs && subs[k].formId == formId);
  }

  // ----- CSV export -----

  /** A parsed submission: its property names and the text of their values, in document order;
      `None` for the JSON literal null. */
  type Data = Option<seq<(string, string)>>

  /** The JSON reader: an error for text that is not a JSON object or null. */
  type Parser = string -> Result<Data>

  const NoSubmissions := "No submissions found"
  const HeaderStart := "ID,Submitted At,IP Address,"
  const NewLine := "\r\n"

  /** `Replace(",", ";")`. */
  function CommaToSemicolon(s: string): (r: string)
    ensures |r| == |s| && ',' !in r
    ensures forall i :: 0 <= i < |s| ==> r[i] == (if s[i] == ',' then ';' else s[i])
  {
    if s == [] then [] else [if s[0] == ',' then ';' else s[0]] + CommaToSemicolon(s[1..])
  }

  function Keys(d: seq<(string, string)>): (r: seq<string>)
    ensures |r| == |d| && forall i :: 0 <= i < |d| ==> r[i] == d[i].0
  {
    if d == [] then [] else [d[0].0] + Keys(d[1..])
  }

  /** The exported values of one submission: none for null data, otherwise every value with
      its commas replaced. */
  function CellValues(data: Data): (r: seq<string>)
    ensures data.None? ==> r == []
    ensures data.Some? ==> |r| == |data.value|
    ensures forall i :: 0 <= i < |r| ==> ',' !in r[i] && r[i] == CommaToSemicolon(data.value[i].1)
  {
    if data.None? then [] else CellsOf(data.value)
  }

  function CellsOf(d: seq<(string, string)>): (r: seq<string>)
    ensures |r| == |d| && forall i :: 0 <= i < |d| ==> r[i] == CommaToSemicolon(d[i].1)
  {
    if d == [] then [] else [CommaToSemicolon(d[0].1)] + CellsOf(d[1..])
  }

  /** The first line: the fixed columns, then the first submission's property names. */
  function HeaderLine(keys: seq<string>): string {
    HeaderStart + Join(keys, ",") + NewLine
  }

  /** One submission's line; `formatTime` is the culture's date and time text, and a null IP
      address is empty. */
  function RowLine(id: int, s: Submission, formatTime: int -> string, values: seq<string>): string {
    IntToString(id) + "," + formatTime(s.submittedAt) + "," + s.ipAddress.GetOr("") + "," + Join(values, ",") + NewLine
  }

  /** The lines of the loop over the submissions; the first text that does not parse aborts. */
  function DataRows(subs: seq<(int, Submission)>, parse: Parser, formatTime: int -> string): (r: Result<string>)
    ensures r.Err? ==> r.error == Malformed
  {
    if subs == [] then Ok("")
    else
      var body := DataRows(subs[..|subs| - 1], parse, formatTime);
      var line := LineOf(subs[|subs| - 1], parse, formatTime);
      if body.Err? || line.Err? then Err(Malformed) else Ok(body.value + line.value)
  }

  /** One submission's line, or an error when its text does not parse. */
  function LineOf(row: (int, Submission), parse: Parser, formatTime: int -> string): (r: Result<string>)
    ensures r.Err? <==> parse(row.1.dataJson).Err?
  {
    match parse(row.1.dataJson)
    case Err(_) => Err(Malformed)
    case Ok(data) => Ok(RowLine(row.0, row.1, formatTime, CellValues(data)))
  }

  /** `ExportSubmissionsAsCsvAsync` on a form's list: a fixed text when there is none; no text
      at all when the first submission's data is null; otherwise the header and one line per
      submission in list order. */
  function Csv(subs: seq<(int, Submission)>, parse: Parser, formatTime: int -> string): (r: Result<string>)
    ensures subs == [] ==> r == Ok(NoSubmissions)
    ensures subs != [] && parse(subs[0].1.dataJson).Err? ==> r == Err(Malformed)
    ensures subs != [] && parse(subs[0].1.dataJson) == Ok(None) ==> r == Ok("")
    ensures r.Err? ==> r.error == Malformed
  {
    if subs == [] then Ok(NoSubmissions)
    else
      match parse(subs[0].1.dataJson)
      case Err(_) => Err(Malformed)
      case Ok(None) => Ok("")
      case Ok(Some(first)) =>
        match DataRows(subs, parse, formatTime)
        case Err(_) => Err(Malformed)
        case Ok(body) => Ok(HeaderLine(Keys(first)) + body)
  }

  /** With an object as the first data, the export is the header followed by the loop's lines,
      or fails with the loop. */
  lemma CsvOfRows(subs: seq<(int, Submission)>, parse: Parser, formatTime: int -> string, first: seq<(string, string)>)
    requires subs != [] && parse(subs[0].1.dataJson) == Ok(Some(first))
    ensures DataRows(subs, parse, formatTime).Err? ==> Csv(subs, parse, formatTime) == Err(Malformed)
    ensures DataRows(subs, parse, formatTime).Ok? ==>
              Csv(subs, parse, formatTime) == Ok(HeaderLine(Keys(first)) + DataRows(subs, parse, formatTime).value)
  {
  }

  /** A text that does not parse anywhere in the list fails the loop. */
  lemma {:induction false} RowsFail(subs: seq<(int, Submission)>, i: int, parse: Parser, formatTime: int -> string)
    requires 0 <= i < |subs| && parse(subs[i].1.dataJson).Err?
    ensures DataRows(subs, parse, formatTime).Err?
    decreases |subs|
  {
    var pre := subs[..|subs| - 1];
    if i < |pre| {
      assert pre[i] == subs[i];
      RowsFail(pre, i, parse, formatTime);
    }
  }

  /** One more submission whose text parses adds its line. */
  lemma RowsStep(subs: seq<(int, Submission)>, i: int, parse: Parser, formatTime: int -> string)
    requires 0 <= i < |subs| && DataRows(subs[..i], parse, formatTime).Ok? && parse(subs[i].1.dataJson).Ok?
    ensures DataRows(subs[..i + 1], parse, formatTime)
            == Ok(DataRows(subs[..i], parse, formatTime).value + LineOf(subs[i], parse, formatTime).value)
  {
    assert subs[..i + 1][..i] == subs[..i];
  }

  /** `ExportSubmissionsAsCsvAsync`'s text from the form's list: the header from the first
      submission, then one line per submission. */
  method ExportCsv(subs: seq<(int, Submission)>, parse: Parser, formatTime: int -> string) returns (r: Result<string>)
    ensures r == Csv(subs, parse, formatTime)
  {
    if |subs| == 0 {
      return Ok(NoSubmissions);
    }
    var firstData := parse(subs[0].1.dataJson);
    if firstData.Err? {
      return Err(Malformed);
    }
    if firstData.value.None? {
      return Ok("");
    }
    var header := HeaderLine(Keys(firstData.value.value));
    var rows := AppendRows(subs, parse, formatTime);
    CsvOfRows(subs, parse, formatTime, firstData.value.value);
    if rows.Err? {
      return Err(Malformed);
    }
    r := Ok(header + rows.value);
  }

  /** The export's loop: one line per submission, appended in list order, stopping at the
      first text that does not parse. */
  method AppendRows(subs: seq<(int, Submission)>, parse: Parser, formatTime: int -> string) returns (r: Result<string>)
    ensures r == DataRows(subs, parse, formatTime)
  {
    var csv := "";
    var i := 0;
    while i < |subs|
      invariant 0 <= i <= |subs|
      invariant DataRows(subs[..i], parse, formatTime) == Ok(csv)
    {
      var data := parse(subs[i].1.dataJson);
      if data.Err? {
        RowsFail(subs, i, parse, formatTime);
        return Err(Malformed);
      }
      RowsStep(subs, i, parse, formatTime);
      csv := csv + LineOf(subs[i], parse, formatTime).value;
      i := i + 1;
    }
    assert subs[..i] == subs;
    r := Ok(csv);
  }

  /** A data line has three commas before the values and one between each two of them: with
      a time text and an IP address free of commas, a value never adds a column. */
  lemma RowColumns(id: int, s: Submission, formatTime: int -> string, data: Data)
    requires ',' !in formatTime(s.submittedAt) && ',' !in s.ipAddress.GetOr("")
    ensures var values := CellValues(data);
            CountChar(RowLine(id, s, formatTime, values), ',') == 3 + (if values == [] then 0 else |values| - 1)
  {
    var values := CellValues(data);
    var idText := IntToString(id);
    assert ',' !in idText by {
      if id < 0 {
        assert idText == "-" + NatToString(-id);
        var digits := NatToString(-id);
        assert forall k :: 0 <= k < |digits| ==> IsDigit(digits[k]);
      } else {
        assert forall k :: 0 <= k < |idText| ==> IsDigit(idText[k]);
      }
    }
    var at := formatTime(s.submittedAt);
    var ip := s.ipAddress.GetOr("");
    var joined := Join(values, ",");
    assert CountChar(joined, ',') == (if values == [] then 0 else |values| - 1) by {
      if values != [] {
        JoinSeparatorCount(values, ',');
      }
    }
    CountCharAbsent(idText, ',');
    CountCharAbsent(at, ',');
    CountCharAbsent(ip, ',');
    CountCharAbsent(NewLine, ',');
    CountCharAppend(idText, ",", ',');
    CountCharAppend(idText + ",", at, ',');
    CountCharAppend(idText + "," + at, ",", ',');
    CountCharAppend(idText + "," + at + ",", ip, ',');
    CountCharAppend(idText + "," + at + "," + ip, ",", ',');
    CountCharAppend(idText + "," + at + "," + ip + ",", joined, ',');
    CountCharAppend(idText + "," + at + "," + ip + "," + joined, NewLine, ',');
  }

  /** A successful export of a non-empty list whose first data is an object starts with the
      fixed header columns followed by that object's property names. */
  lemma CsvHeader(subs: seq<(int, Submission)>, parse: Parser, formatTime: int -> string)
    requires subs != [] && parse(subs[0].1.dataJson).Ok? && parse(subs[0].1.dataJson).value.Some?
    requires Csv(subs, parse, formatTime).Ok?
    ensures StartsWith(Csv(subs, parse, formatTime).value,
                       HeaderLine(Keys(parse(subs[0].1.dataJson).value.value)))
    ensures StartsWith(Csv(subs, parse, formatTime).value, HeaderStart)
  {
    var h := HeaderLine(Keys(parse(subs[0].1.dataJson).value.value));
    var out := Csv(subs, parse, formatTime).value;
    assert out[..|h|] == h;
    assert h[..|HeaderStart|] == HeaderStart;
  }

  // ----- the service -----

  function ToSubmissionResponse(id: int, s: Submission, formName: string): (r: SubmissionResponse)
    ensures r.id == id && r.formId == s.formId && r.dataJson == s.dataJson && r.ipAddress == s.ipAddress
            && r.userAgent == s.userAgent && r.formName == formName
  {
    SubmissionResponse(id, s.formId, formName, s.dataJson, s.ipAddress, s.userAgent, s.submittedAt)
  }

  class FormService {
    var forms: map<int, Form>
    var submissions: map<int, Submission>
    var nextFormId: int
    var nextSubmissionId: int

    /** Ids are below their counters, and every submission belongs to a stored form. */
    ghost predicate Valid()
      reads this
    {
      && 0 < nextFormId && 0 < nextSubmissionId
      && (forall id | id in forms :: 0 < id < nextFormId)
      && (forall id | id in submissions :: 0 < id < nextSubmissionId && submissions[id].formId in forms)
    }

    constructor ()
      ensures Valid() && forms == map[] && submissions == map[]
    {
      forms := map[];
      submissions := map[];
      nextFormId := 1;
      nextSubmissionId := 1;
    }

    function GetFormById(id: int): (r: Result<FormResponse>)
      reads this
      ensures r.Err? <==> id !in forms
      ensures r.Err? ==> r.error == NotFound
      ensures r.Ok? ==> r.value.form == forms[id] && r.value.submissionCount == |SubmissionsOf(submissions, id)|
    {
      if id !in forms then Err(NotFound) else Ok(FormResponse(id, forms[id], |SubmissionsOf(submissions, id)|))
    }

    method CreateForm(userId: int, req: FormRequest, now: int) returns (id: int)
      requires Valid()
      modifies this
      ensures Valid()
      ensures id !in old(forms)
      ensures forms == old(forms)[id := Form(req.name, req.description, req.fieldsJson, req.isActive, userId, now, now)]
      ensures submissions == old(submissions) && nextSubmissionId == old(nextSubmissionId)
    {
      id := nextFormId;
      forms := forms[id := Form(req.name, req.description, req.fieldsJson, req.isActive, userId, now, now)];
      nextFormId := nextFormId + 1;
    }

    /** All four request fields are written, the description even when null. */
    method UpdateForm(id: int, req: FormRequest, now: int) returns (r: Outcome)
      requires Valid()
      modifies this
      ensures Valid()
      ensures r == Fail(NotFound) <==> id !in old(forms)
      ensures r.Fail? ==> unchanged(this)
      ensures r.Pass? ==> forms == old(forms)[id := old(forms)[id].(name := req.name, description := req.description,
                                                    fieldsJson := req.fieldsJson, isActive := req.isActive, updatedAt := now)]
      ensures submissions == old(submissions)
    {
      if id !in forms {
        return Fail(NotFound);
      }
      forms := forms[id := forms[id].(name := req.name, description := req.description,
                                      fieldsJson := req.fieldsJson, isActive := req.isActive, updatedAt := now)];
      r := Pass;
    }

    /** The form goes, and its submissions with it. */
    method DeleteForm(id: int) returns (r: Outcome)
      requires Valid()
      modifies this
      ensures Valid()
      ensures r == Fail(NotFound) <==> id !in old(forms)
      ensures r.Fail? ==> unchanged(this)
      ensures r.Pass? ==> forms == old(forms) - {id}
                          && submissions == map k | k in old(submissions) && old(submissions)[k].formId != id :: old(submissions)[k]
    {
      if id !in forms {
        return Fail(NotFound);
      }
      forms := forms - {id};
      submissions := map k | k in submissions && submissions[k].formId != id :: submissions[k];
      r := Pass;
    }

    /** `SubmitFormAsync`: a missing or inactive form is `NotFound` and nothing is stored;
        otherwise one submission carrying the request's data, IP address and user agent. The
        notification after the save is left out: its failure is swallowed. */
    method SubmitForm(formId: int, dataJson: string, ipAddress: Option<string>, userAgent: Option<string>, now: int)
      returns (r: Result<SubmissionResponse>)
      requires Valid()
      modifies this
      ensures Valid() && forms == old(forms)
      ensures r.Err? <==> formId !in old(forms) || !old(forms)[formId].isActive
      ensures r.Err? ==> r.error == NotFound && unchanged(this)
      ensures r.Ok? ==>
                var s := Submission(formId, dataJson, ipAddress, userAgent, now);
                && old(nextSubmissionId) !in old(submissions)
                && submissions == old(submissions)[old(nextSubmissionId) := s]
                && r.value == ToSubmissionResponse(old(nextSubmissionId), s, forms[formId].name)
    {
      if formId !in forms || !forms[formId].isActive {
        return Err(NotFound);
      }
      var s := Submission(formId, dataJson, ipAddress, userAgent, now);
      var id := nextSubmissionId;
      submissions := submissions[id := s];
      nextSubmissionId := nextSubmissionId + 1;
      r := Ok(ToSubmissionResponse(id, s, forms[formId].name));
    }

    /** The form's submissions, newest first, each named after the form. */
    function GetFormSubmissions(formId: int): seq<SubmissionResponse>
      reads this
    {
      var name := if formId in forms then forms[formId].name else "";
      Select((row: (int, Submission)) => ToSubmissionResponse(row.0, row.1, name), SubmissionsOf(submissions, formId))
    }

    method ExportSubmissionsAsCsv(formId: int, parse: Parser, formatTime: int -> string) returns (r: Result<string>)
      ensures r == Csv(SubmissionsOf(submissions, formId), parse, formatTime)
    {
      r := ExportCsv(SubmissionsOf(submissions, formId), parse, formatTime);
    }

    method DeleteSubmission(id: int) returns (r: Outcome)
      requires Valid()
      modifies this
      ensures Valid()
      ensures r == Fail(NotFound) <==> id !in old(submissions)
      ensures r.Fail? ==> unchanged(this)
      ensures r.Pass? ==> submissions == old(submissions) - {id} && forms == old(forms)
    {
      if id !in submissions {
        return Fail(NotFound);
      }
      submissions := submissions - {id};
      r := Pass;
    }
  }
}

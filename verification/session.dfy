/** The results page's session state and the three steps that change it:
    submitting the form, starting a lookup, and settling it with the
    service's response. */
module Session {
  import opened Wrappers
  import opened Js
  import opened Semester

  /** One row of the results table. */
  datatype Subject = Subject(subject: string, grade: string)

  /** The `subjects` field of a response body: missing (or `null`), or an array. */
  datatype SubjectsField = Absent | Arr(items: seq<Subject>) {
    /** `subjects || []` */
    function OrEmpty(): seq<Subject> {
      match this
      case Absent => []
      case Arr(items) => items
    }
  }

  /** A truthy response body, seen through the three fields the page reads. */
  datatype Data = Data(subjects: SubjectsField, cgpa: Option<string>, sgpa: Option<string>)

  /** What `fetch` and `response.json()` hand back.
      Rejected: `fetch` rejected or the body was not JSON; the promise's error
      message is all that survives.
      NotOk: the service answered with a non-2xx status.
      Ok: a parsed body; None stands for a falsy body such as `null`. */
  datatype Response = Rejected(message: string) | NotOk | Ok(data: Option<Data>)

  /** The page's state hooks. `results` is None before any lookup has settled
      with data; `error` is None when no message is shown. */
  datatype State = State(
    regdNo: string,
    semester: string,
    results: Option<seq<Subject>>,
    cgpa: string,
    sgpa: string,
    loading: bool,
    error: Option<string>)

  /** The JSON body posted to the service. */
  datatype Request = Request(regdNo: string, semester: string)

  /** The outcome of a form submission: refused by validation, or a lookup
      started together with the request it sends. */
  datatype Submission = Refused(state: State) | Issued(state: State, request: Request)

  const FillAllFields: string := "Please fill in all fields"
  const FetchFailed: string := "Failed to fetch results"
  const NotReleased: string := "Results Not Yet Released"
  const NotAvailable: string := "N/A"

  /** The state the hooks are created with. */
  function Init(): State {
    State("", "", None, "", "", false, None)
  }

  /** A response body that means the semester has no published results: a
      falsy body, or a `subjects` array with no elements. */
  predicate NothingReleased(data: Option<Data>) {
    data.None? || data.value.subjects == Arr([])
  }

  /** The start of a lookup: the spinner is on, the message and the table are
      cleared, and the form fields and the last SGPA/CGPA are kept. */
  function Start(s: State): (t: State)
    ensures t.loading && t.error == None && t.results == None
    ensures t.cgpa == s.cgpa && t.sgpa == s.sgpa
    ensures t.regdNo == s.regdNo && t.semester == s.semester
  {
    s.(loading := true, error := None, results := None)
  }

  /** How the `try` block of a lookup ends: normally with the state it wrote,
      or by throwing an error with a message. */
  datatype Completion = Normal(state: State) | Thrown(message: string)

  /** The `try` block after the request is sent. */
  function TryBlock(s: State, resp: Response): Completion {
    match resp
    case Rejected(m) => Thrown(m)
    case NotOk => Thrown(FetchFailed)
    case Ok(data) =>
      if !data.Some? || (data.value.subjects.Arr? && |data.value.subjects.items| == 0) then
        Normal(s.(cgpa := NotReleased, sgpa := NotReleased, results := Some([])))
      else
        Normal(s.(results := Some(data.value.subjects.OrEmpty()),
                  cgpa := Or(data.value.cgpa, NotAvailable),
                  sgpa := Or(data.value.sgpa, NotAvailable)))
  }

  /** The end of a lookup: the `try` block, its `catch`, then the `finally`
      that turns the spinner off. */
  function Settle(s: State, resp: Response): (t: State)
    ensures !t.loading
    ensures t.regdNo == s.regdNo && t.semester == s.semester
    // transport failure: only the message changes
    ensures resp.NotOk? ==> t.error == Some(FetchFailed)
    ensures resp.Rejected? ==> t.error == Some(resp.message)
    ensures !resp.Ok? ==> t.results == s.results && t.cgpa == s.cgpa && t.sgpa == s.sgpa
    // a response arrived: the message is left alone and a table is always set
    ensures resp.Ok? ==> t.error == s.error && t.results.Some?
    // not yet released: an empty table and the sentinel in both summaries
    ensures resp.Ok? && NothingReleased(resp.data) ==>
      t.results == Some([]) && t.cgpa == NotReleased && t.sgpa == NotReleased
    // populated: subjects verbatim, a falsy SGPA/CGPA shown as "N/A"
    ensures resp.Ok? && !NothingReleased(resp.data) ==>
      && (resp.data.value.subjects.Arr? ==> t.results == Some(resp.data.value.subjects.items))
      && (resp.data.value.subjects.Absent? ==> t.results == Some([]))
      && (Truthy(resp.data.value.cgpa) ==> t.cgpa == resp.data.value.cgpa.value)
      && (!Truthy(resp.data.value.cgpa) ==> t.cgpa == NotAvailable)
      && (Truthy(resp.data.value.sgpa) ==> t.sgpa == resp.data.value.sgpa.value)
      && (!Truthy(resp.data.value.sgpa) ==> t.sgpa == NotAvailable)
  {
    var caught :=
      match TryBlock(s, resp)
      case Normal(u) => u
      case Thrown(m) => s.(error := Some(m));
    caught.(loading := false)
  }

  /** Both form fields hold something. */
  predicate Filled(s: State) {
    s.regdNo != "" && s.semester != ""
  }

  /** The form's submit handler: refuse an incomplete form with a fixed
      message, otherwise start a lookup and send the registration number with
      the translated semester. */
  function HandleSubmit(s: State): (r: Submission)
    ensures r.Refused? <==> s.regdNo == "" || s.semester == ""
    ensures r.Refused? ==> r.state == s.(error := Some(FillAllFields))
    ensures r.Issued? ==> r.state == Start(s)
    ensures r.Issued? ==> r.request.regdNo == s.regdNo && r.request.regdNo != ""
    ensures r.Issued? ==> r.request.semester == ConvertSemester(s.semester)
  {
    if !Filled(s) then Refused(s.(error := Some(FillAllFields)))
    else Issued(Start(s), Request(s.regdNo, ConvertSemester(s.semester)))
  }

  /** A whole submission, from the submit event to the settled lookup when one
      is sent. */
  function Lookup(s: State, resp: Response): (t: State)
    ensures t.regdNo == s.regdNo && t.semester == s.semester
    // an incomplete form: the message and nothing else
    ensures !Filled(s) ==>
      t.error == Some(FillAllFields) && t.results == s.results &&
      t.cgpa == s.cgpa && t.sgpa == s.sgpa && t.loading == s.loading
    ensures Filled(s) ==> !t.loading
    // a failed lookup: no table (not an empty one), stale SGPA/CGPA
    ensures Filled(s) && resp.NotOk? ==>
      t.error == Some(FetchFailed) && t.results == None && t.cgpa == s.cgpa && t.sgpa == s.sgpa
    ensures Filled(s) && resp.Rejected? ==>
      t.error == Some(resp.message) && t.results == None && t.cgpa == s.cgpa && t.sgpa == s.sgpa
    // a response arrived: no message, a table, and two summaries to show
    ensures Filled(s) && resp.Ok? ==>
      t.error == None && t.results.Some? && t.cgpa != "" && t.sgpa != ""
  {
    match HandleSubmit(s)
    case Refused(u) => u
    case Issued(u, _) => Settle(u, resp)
  }

  /** A lookup that received a response shows nothing of the state it started
      from beyond the form fields: two sessions with the same form end equal. */
  lemma LookupForgetsPriorResult(s1: State, s2: State, resp: Response)
    requires Filled(s1) && s1.regdNo == s2.regdNo && s1.semester == s2.semester
    requires resp.Ok?
    ensures Lookup(s1, resp) == Lookup(s2, resp)
  {
  }

  /** The lookups of a worked example: registration number 21A91A0501,
      semester 3, against a populated, an empty and a failed response. */
  lemma ExampleLookups()
    ensures
      var s := Init().(regdNo := "21A91A0501", semester := "3");
      var ds := [Subject("DS", "A")];
      && HandleSubmit(s).request == Request("21A91A0501", "Semester-III")
      && Lookup(s, Ok(Some(Data(Arr(ds), Some("8.0"), Some("8.2"))))) ==
         s.(results := Some(ds), cgpa := "8.0", sgpa := "8.2")
      && Lookup(s, Ok(Some(Data(Arr([]), None, None)))) ==
         s.(results := Some([]), cgpa := NotReleased, sgpa := NotReleased)
      && Lookup(s, NotOk) == s.(error := Some(FetchFailed))
  {
  }
}

/** The decision logic of the employee repository: which upstream reply leads
    to which result, the extraction of creation fields from an untyped map, and
    the fixed fallback dataset used when the upstream API answers non-2xx.
    Every upstream call is represented by the reply it produced (an input) and
    by the request it sent (part of the output). */
module EmployeeUtil {
  import opened Outcomes
  import opened Text
  import opened Employees

  // Upstream endpoints.
  const BaseUrl := "https://dummy.restapiexample.com/api/v1"
  const CreateEmployeePath := "/create"
  const DeleteEmployeePath := "/delete/"
  const GetEmployeeByIdPath := "/employee/"

  // Keys of the creation map and of the create request body.
  const NameKey := "name"
  const SalaryKey := "salary"
  const AgeKey := "age"
  const EmployeeNameKey := "employee_name"
  const EmployeeSalaryKey := "employee_salary"
  const EmployeeAgeKey := "employee_age"

  /** The outcome of a create call, named SUCCESS and FAILURE. */
  datatype ResponseStatus = Success | Failure

  /** `Enum.name()`: distinct upper-case names, so an upper-cased status
      can be compared with them. */
  function StatusName(status: ResponseStatus): (r: string)
    ensures ToUpper(r) == r
    ensures r == "SUCCESS" <==> status == Success
    ensures r == "FAILURE" <==> status == Failure
  {
    match status
    case Success => "SUCCESS"
    case Failure => "FAILURE"
  }

  /** Each constant's name reads back to that constant. */
  lemma StatusNameRoundTrip(status: ResponseStatus)
    ensures StatusValueOf(StatusName(status)) == Ok(status)
  {
  }

  /** `ResponseStatus.valueOf`: the constant with exactly this name, or
      IllegalArgumentException. */
  function StatusValueOf(name: string): (r: Result<ResponseStatus>)
    ensures r.Ok? <==> name == "SUCCESS" || name == "FAILURE"
    ensures r.Ok? ==> StatusName(r.value) == name
    ensures r.Err? ==> r.error == NoSuchStatus(name)
  {
    if name == "SUCCESS" then Ok(Success)
    else if name == "FAILURE" then Ok(Failure)
    else Err(NoSuchStatus(name))
  }

  /** Order-preserving sublist: `sub` is `s` with some elements dropped. */
  predicate IsSubsequence(sub: seq<Employee>, s: seq<Employee>)
    decreases |s|
  {
    sub == [] || (s != [] && ((sub[0] == s[0] && IsSubsequence(sub[1..], s[1..])) || IsSubsequence(sub, s[1..])))
  }

  lemma {:induction false} SubsequenceShorter(sub: seq<Employee>, s: seq<Employee>)
    requires IsSubsequence(sub, s)
    ensures |sub| <= |s|
    decreases |s|
  {
    if sub != [] {
      if sub[0] == s[0] && IsSubsequence(sub[1..], s[1..]) {
        SubsequenceShorter(sub[1..], s[1..]);
      } else {
        SubsequenceShorter(sub, s[1..]);
      }
    }
  }

  // ----- the fallback dataset -----

  /** The 24 records substituted for the upstream data when a call is answered
      with a non-2xx status. */
  const MockEmployees: seq<Employee> := [
      Employee(1, "Tiger Nixon", 320800, 61, ""),
      Employee(2, "Garrett Winters", 170750, 63, ""),
      Employee(3, "Ashton Cox", 86000, 66, ""),
      Employee(4, "Cedric Kelly", 433060, 22, ""),
      Employee(5, "Airi Satou", 162700, 33, ""),
      Employee(6, "Brielle Williamson", 372000, 61, ""),
      Employee(7, "Herrod Chandler", 137500, 59, ""),
      Employee(8, "Rhona Davidson", 327900, 55, ""),
      Employee(9, "Colleen Hurst", 205500, 39, ""),
      Employee(10, "Sonya Frost", 103600, 23, ""),
      Employee(11, "Jena Gaines", 90560, 30, ""),
      Employee(12, "Quinn Flynn", 342000, 22, ""),
      Employee(13, "Charde Marshall", 470600, 36, ""),
      Employee(14, "Haley Kennedy", 313500, 43, ""),
      Employee(15, "Tatyana Fitzpatrick", 385750, 19, ""),
      Employee(16, "Michael Silva", 198500, 66, ""),
      Employee(17, "Paul Byrd", 725000, 64, ""),
      Employee(18, "Gloria Little", 237500, 59, ""),
      Employee(19, "Bradley Greer", 132000, 41, ""),
      Employee(20, "Dai Rios", 217500, 35, ""),
      Employee(21, "Jenette Caldwell", 345000, 30, ""),
      Employee(22, "Yuri Berry", 675000, 40, ""),
      Employee(23, "Caesar Vance", 106450, 21, ""),
      Employee(24, "Doris Wilder", 85600, 23, "")
    ]

  /** `getAllEmployeesList`: the parsed `data` of a 2xx reply, which is null
      (None) when the reply carries `"data": null`; the fallback dataset after
      a non-2xx reply; and IOException when the transport throws (the
      transport failure is not replaced by the fallback). */
  function AllEmployees(reply: Reply<Option<seq<Employee>>>): (r: Result<Option<seq<Employee>>>)
    ensures r.Err? <==> reply.TransportFailure?
    ensures r.Err? ==> r.error == IOFailure
    ensures reply.Unsuccessful? ==> r == Ok(Some(MockEmployees))
    ensures reply.Successful? ==> r == Ok(reply.body)
    ensures r == Ok(None) <==> reply == Successful(None)
  {
    match reply
    case TransportFailure => Err(IOFailure)
    case Unsuccessful => Ok(Some(MockEmployees))
    case Successful(data) => Ok(data)
  }

  // ----- get by id -----

  function ByIdUrl(id: string): string { BaseUrl + GetEmployeeByIdPath + id }

  function NoEntityMessage(id: string): string { "No entity found with id : " + id }

  /** The employees of `list` whose id is `id`, in list order. */
  function WithId(list: seq<Employee>, id: int): (r: seq<Employee>)
    ensures forall e :: e in r <==> e in list && e.id == id
    ensures IsSubsequence(r, list)
  {
    if list == [] then []
    else if list[0].id == id then [list[0]] + WithId(list[1..], id)
    else WithId(list[1..], id)
  }

  /** The filter keeps every record with the id as often as the list holds
      it, and no other record. */
  lemma {:induction false} WithIdKeepsMultiplicity(list: seq<Employee>, id: int, e: Employee)
    ensures multiset(WithId(list, id))[e] == if e.id == id then multiset(list)[e] else 0
    decreases |list|
  {
    if list != [] {
      var first, rest := list[0], list[1..];
      WithIdKeepsMultiplicity(rest, id, e);
      assert list == [first] + rest;
      var kept := if first.id == id then [first] else [];
      assert WithId(list, id) == kept + WithId(rest, id);
      assert multiset(WithId(list, id)) == multiset(kept) + multiset(WithId(rest, id));
      assert multiset(list) == multiset{first} + multiset(rest);
    }
  }

  /** In a list whose ids count up from `first`, looking up an id finds
      exactly the record at the matching position, or nothing. */
  lemma {:induction false} WithIdConsecutive(list: seq<Employee>, first: int, id: int)
    requires forall i :: 0 <= i < |list| ==> list[i].id == first + i
    ensures first <= id < first + |list| ==> WithId(list, id) == [list[id - first]]
    ensures !(first <= id < first + |list|) ==> WithId(list, id) == []
    decreases |list|
  {
    if list != [] {
      WithIdConsecutive(list[1..], first + 1, id);
    }
  }

  /** The candidates of the fallback path: the id is parsed as a long (a
      malformed id throws NumberFormatException, since the dataset is not
      empty) and the dataset is filtered on it. */
  function FallbackCandidates(id: string): (r: Result<seq<Employee>>)
    ensures r.Err? <==> ParseLong(id).Err?
    ensures r.Err? ==> r.error == NumberFormat(id)
    ensures r.Ok? ==> forall e :: e in r.value <==> e in MockEmployees && e.id == ParseLong(id).value
    ensures r.Ok? ==> IsSubsequence(r.value, MockEmployees)
  {
    match ParseLong(id)
    case Err(e) => Err(e)
    case Ok(n) => Ok(WithId(MockEmployees, n))
  }

  /** The non-2xx half of `getEmployeeById`: the first fallback candidate,
      NumberFormatException for a malformed id, and not-found when no record
      carries the id. */
  function FallbackLookup(id: string): (r: Result<Employee>)
    ensures ParseLong(id).Err? ==> r == Err(NumberFormat(id))
    ensures ParseLong(id).Ok? ==> (r.Ok? <==> exists e :: e in MockEmployees && e.id == ParseLong(id).value)
    ensures ParseLong(id).Ok? && r.Err? ==> r == Err(NotFound(NoEntityMessage(id)))
    ensures r.Ok? ==> r.value in MockEmployees && ParseLong(id) == Ok(r.value.id)
    ensures r.Ok? ==> FallbackCandidates(id).Ok? && FallbackCandidates(id).value != []
                      && r.value == FallbackCandidates(id).value[0]
  {
    match FallbackCandidates(id)
    case Err(e) => Err(e)
    case Ok(candidates) =>
      if candidates == [] then Err(NotFound(NoEntityMessage(id)))
      else
        assert candidates[0] in candidates;
        Ok(candidates[0])
  }

  /** Specification of `getEmployeeById`: the first employee of the reply's
      `data` (or of the fallback candidates after a non-2xx reply), and
      not-found exactly when that list is null or empty. */
  ghost function ByIdOutcome(id: string, reply: Reply<Option<seq<Employee>>>): (r: Result<Employee>)
    ensures r == Err(IOFailure) <==> reply.TransportFailure?
    ensures r.Err? && r.error.NotFound? ==> r.error.message == NoEntityMessage(id)
    ensures reply.Successful? ==> (r.Ok? <==> reply.body.Some? && reply.body.value != [])
    ensures reply.Successful? && r.Ok? ==> r.value == reply.body.value[0]
    ensures reply.Successful? && r.Err? ==> r.error.NotFound?
    ensures reply.Unsuccessful? && ParseLong(id).Err? ==> r == Err(NumberFormat(id))
    ensures reply.Unsuccessful? && ParseLong(id).Ok? ==>
              (r.Ok? <==> exists e :: e in MockEmployees && e.id == ParseLong(id).value)
    ensures reply.Unsuccessful? && r.Ok? ==> r.value in MockEmployees && ParseLong(id) == Ok(r.value.id)
    ensures reply.Unsuccessful? && r.Ok? ==>
              FallbackCandidates(id).Ok? && FallbackCandidates(id).value != [] && r.value == FallbackCandidates(id).value[0]
    ensures reply.Unsuccessful? && ParseLong(id).Ok? && r.Err? ==> r == Err(NotFound(NoEntityMessage(id)))
  {
    match reply
    case TransportFailure => Err(IOFailure)
    case Successful(data) =>
      if data.None? || data.value == [] then Err(NotFound(NoEntityMessage(id))) else Ok(data.value[0])
    case Unsuccessful => FallbackLookup(id)
  }

  /** `getEmployeeById`: one GET to the upstream API, then the lookup above. */
  method GetEmployeeById(id: string, reply: Reply<Option<seq<Employee>>>)
    returns (r: Result<Employee>, sent: seq<Request>)
    ensures sent == [Get(ByIdUrl(id))]
    ensures r == ByIdOutcome(id, reply)
  {
    sent := [Get(ByIdUrl(id))];
    var employeeList: Option<seq<Employee>>;
    match reply {
      case TransportFailure =>
        r := Err(IOFailure);
        return;
      case Successful(data) =>
        employeeList := data;
      case Unsuccessful =>
        var candidates := FallbackCandidates(id);
        if candidates.Err? {
          r := Err(candidates.error);
          return;
        }
        employeeList := Some(candidates.value);
    }
    if employeeList.None? || employeeList.value == [] {
      r := Err(NotFound(NoEntityMessage(id)));
      return;
    }
    r := Ok(employeeList.value[0]);
  }

  // ----- create -----

  const CreateUrl := BaseUrl + CreateEmployeePath

  /** The JSON object posted to the create endpoint: exactly the keys "name",
      "salary" and "age", holding the name text and the two integers. */
  function CreateRequestBody(name: string, salary: int, age: int): (r: map<string, Value>)
    ensures r.Keys == {NameKey, SalaryKey, AgeKey}
    ensures r[NameKey] == Str(name) && r[SalaryKey] == Int(salary) && r[AgeKey] == Int(age)
  {
    map[NameKey := Str(name), SalaryKey := Int(salary), AgeKey := Int(age)]
  }

  /** Specification of `createEmployee`: FAILURE after a non-2xx reply,
      otherwise the constant named by the upper-cased `status` field. */
  ghost function CreateOutcome(reply: Reply<Option<string>>): (r: Result<ResponseStatus>)
    ensures r == Err(IOFailure) <==> reply.TransportFailure?
    ensures reply.Unsuccessful? ==> r == Ok(Failure)
    ensures reply == Successful(None) ==> r == Err(NullStatus)
    ensures reply.Successful? && reply.body.Some? ==>
              && (r == Ok(Success) <==> SameIgnoringCase(reply.body.value, "SUCCESS"))
              && (r == Ok(Failure) <==> SameIgnoringCase(reply.body.value, "FAILURE"))
              && (r.Err? ==> r.error == NoSuchStatus(ToUpper(reply.body.value)))
  {
    match reply
    case TransportFailure => Err(IOFailure)
    case Unsuccessful => Ok(Failure)
    case Successful(None) => Err(NullStatus)
    case Successful(Some(status)) =>
      UpperEqualsIffSameIgnoringCase(status, "SUCCESS");
      UpperEqualsIffSameIgnoringCase(status, "FAILURE");
      StatusValueOf(ToUpper(status))
  }

  /** `createEmployee`: one POST carrying {name, salary, age}, then the
      decision above. */
  method CreateEmployee(name: string, salary: int, age: int, reply: Reply<Option<string>>)
    returns (r: Result<ResponseStatus>, sent: seq<Request>)
    ensures sent == [Post(CreateUrl, CreateRequestBody(name, salary, age))]
    ensures r == CreateOutcome(reply)
  {
    sent := [Post(CreateUrl, CreateRequestBody(name, salary, age))];
    if reply.TransportFailure? {
      r := Err(IOFailure);
      return;
    }
    if reply.Successful? {
      if reply.body.None? {
        r := Err(NullStatus);
        return;
      }
      var status := ToUpper(reply.body.value);
      r := StatusValueOf(status);
      return;
    }
    r := Ok(Failure);
  }

  // ----- delete -----

  function DeleteUrl(id: string): string { BaseUrl + DeleteEmployeePath + id }

  function DeleteFailedMessage(id: string): string { "Failed to delete employee with id : " + id }

  /** What `deleteEmployee` answers once the employee is resolved: the
      employee's name only when the DELETE reply is 2xx with status "success"
      in any case; every other reply is reported as a failed delete. */
  ghost function DeleteOutcome(employee: Employee, id: string, reply: Reply<Option<string>>): (r: Result<string>)
    ensures r.Ok? <==> reply.Successful? && reply.body.Some? && SameIgnoringCase(reply.body.value, "SUCCESS")
    ensures r.Ok? ==> r.value == employee.name
    ensures reply.TransportFailure? ==> r == Err(IOFailure)
    ensures reply == Successful(None) ==> r == Err(NullStatus)
    ensures r.Err? && !reply.TransportFailure? && reply != Successful(None) ==>
              r == Err(NotFound(DeleteFailedMessage(id)))
  {
    match reply
    case TransportFailure => Err(IOFailure)
    case Successful(None) => Err(NullStatus)
    case Successful(Some(status)) =>
      UpperEqualsIffSameIgnoringCase(status, "SUCCESS");
      if ToUpper(status) == StatusName(Success) then Ok(employee.name)
      else Err(NotFound(DeleteFailedMessage(id)))
    case Unsuccessful => Err(NotFound(DeleteFailedMessage(id)))
  }

  /** `deleteEmployee`: resolve the employee first (its failure ends the
      operation before any DELETE is sent), then send the DELETE and decide
      as above. */
  method DeleteEmployee(id: string, lookupReply: Reply<Option<seq<Employee>>>, deleteReply: Reply<Option<string>>)
    returns (r: Result<string>, sent: seq<Request>)
    ensures ByIdOutcome(id, lookupReply).Err? ==>
              r == Err(ByIdOutcome(id, lookupReply).error) && sent == [Get(ByIdUrl(id))]
    ensures ByIdOutcome(id, lookupReply).Ok? ==>
              && sent == [Get(ByIdUrl(id)), Delete(DeleteUrl(id))]
              && r == DeleteOutcome(ByIdOutcome(id, lookupReply).value, id, deleteReply)
  {
    var employee;
    employee, sent := GetEmployeeById(id, lookupReply);
    if employee.Err? {
      r := Err(employee.error);
      return;
    }
    sent := sent + [Delete(DeleteUrl(id))];
    if deleteReply.TransportFailure? {
      r := Err(IOFailure);
      return;
    }
    if deleteReply.Successful? {
      if deleteReply.body.None? {
        r := Err(NullStatus);
        return;
      }
      var status := ToUpper(deleteReply.body.value);
      if status == StatusName(Success) {
        r := Ok(employee.value.name);
        return;
      }
    }
    r := Err(NotFound(DeleteFailedMessage(id)));
  }

  // ----- extraction of the creation fields -----

  /** `Map.get`: null for an absent key. */
  function Lookup(m: map<string, Value>, key: string): (v: Value)
    ensures key in m ==> v == m[key]
    ensures key !in m ==> v == Null
  {
    if key in m then m[key] else Null
  }

  /** `extractName`: the text under "name" when that key is present (even if
      "employee_name" is present too), else the text under "employee_name",
      and "null" when neither key is there. */
  function ExtractName(m: map<string, Value>): (r: string)
    ensures NameKey in m ==> r == ValueOf(m[NameKey])
    ensures NameKey !in m && EmployeeNameKey in m ==> r == ValueOf(m[EmployeeNameKey])
    ensures NameKey !in m && EmployeeNameKey !in m ==> r == "null"
  {
    ChosenText(m, NameKey, EmployeeNameKey)
  }

  /** The text of `m[short]` if `short` is a key, else of `m.get(long)`. */
  function ChosenText(m: map<string, Value>, short: string, long: string): string {
    ValueOf(if short in m then m[short] else Lookup(m, long))
  }

  /** `extractAge`: the same key priority, then `Integer.parseInt`. */
  function ExtractAge(m: map<string, Value>): (r: Result<int>)
    ensures r.Ok? ==> MinInt <= r.value <= MaxInt
    ensures AgeKey in m ==> r == ParseInt(ValueOf(m[AgeKey]))
    ensures AgeKey !in m && EmployeeAgeKey in m ==> r == ParseInt(ValueOf(m[EmployeeAgeKey]))
    ensures AgeKey !in m && EmployeeAgeKey !in m ==> r == Err(NumberFormat("null"))
  {
    ParseInt(ChosenText(m, AgeKey, EmployeeAgeKey))
  }

  /** `extractSalary`: the same key priority, then `Integer.parseInt`. */
  function ExtractSalary(m: map<string, Value>): (r: Result<int>)
    ensures r.Ok? ==> MinInt <= r.value <= MaxInt
    ensures SalaryKey in m ==> r == ParseInt(ValueOf(m[SalaryKey]))
    ensures SalaryKey !in m && EmployeeSalaryKey in m ==> r == ParseInt(ValueOf(m[EmployeeSalaryKey]))
    ensures SalaryKey !in m && EmployeeSalaryKey !in m ==> r == Err(NumberFormat("null"))
  {
    ParseInt(ChosenText(m, SalaryKey, EmployeeSalaryKey))
  }

  /** A creation map in the short spelling (the shape of the create request
      body) is read back exactly, whatever else the map holds. */
  lemma ShortKeysReadBack(m: map<string, Value>, name: string, salary: int, age: int)
    requires MinInt <= salary <= MaxInt && MinInt <= age <= MaxInt
    ensures var short := m[NameKey := Str(name)][SalaryKey := Int(salary)][AgeKey := Int(age)];
            ExtractName(short) == name && ExtractSalary(short) == Ok(salary) && ExtractAge(short) == Ok(age)
  {
    var short := m[NameKey := Str(name)][SalaryKey := Int(salary)][AgeKey := Int(age)];
    assert NameKey != SalaryKey && NameKey != AgeKey && SalaryKey != AgeKey;
    assert short[NameKey] == Str(name) && short[SalaryKey] == Int(salary) && short[AgeKey] == Int(age);
    ValueOfParses(Int(salary));
    ValueOfParses(Int(age));
  }

  /** A creation map in the long spelling (the shape of a serialised
      Employee) is read back exactly when no short key shadows it. */
  lemma LongKeysReadBack(m: map<string, Value>, name: string, salary: int, age: int)
    requires MinInt <= salary <= MaxInt && MinInt <= age <= MaxInt
    ensures var long := (m - {NameKey, SalaryKey, AgeKey})[EmployeeNameKey := Str(name)]
                          [EmployeeSalaryKey := Int(salary)][EmployeeAgeKey := Int(age)];
            ExtractName(long) == name && ExtractSalary(long) == Ok(salary) && ExtractAge(long) == Ok(age)
  {
    var long := (m - {NameKey, SalaryKey, AgeKey})[EmployeeNameKey := Str(name)]
                  [EmployeeSalaryKey := Int(salary)][EmployeeAgeKey := Int(age)];
    assert EmployeeNameKey != EmployeeSalaryKey && EmployeeNameKey != EmployeeAgeKey
           && EmployeeSalaryKey != EmployeeAgeKey;
    assert NameKey != EmployeeNameKey && NameKey != EmployeeSalaryKey && NameKey != EmployeeAgeKey;
    assert SalaryKey != EmployeeNameKey && SalaryKey != EmployeeSalaryKey && SalaryKey != EmployeeAgeKey;
    assert AgeKey != EmployeeNameKey && AgeKey != EmployeeSalaryKey && AgeKey != EmployeeAgeKey;
    assert NameKey !in long && SalaryKey !in long && AgeKey !in long;
    assert long[EmployeeNameKey] == Str(name) && long[EmployeeSalaryKey] == Int(salary)
           && long[EmployeeAgeKey] == Int(age);
    ValueOfParses(Int(salary));
    ValueOfParses(Int(age));
  }

  /** The body that `createEmployee` posts is itself a creation map that
      extracts back to the posted fields. */
  lemma CreateRequestBodyRoundTrip(name: string, salary: int, age: int)
    requires MinInt <= salary <= MaxInt && MinInt <= age <= MaxInt
    ensures ExtractName(CreateRequestBody(name, salary, age)) == name
    ensures ExtractSalary(CreateRequestBody(name, salary, age)) == Ok(salary)
    ensures ExtractAge(CreateRequestBody(name, salary, age)) == Ok(age)
  {
    ShortKeysReadBack(map[], name, salary, age);
    assert map[][NameKey := Str(name)][SalaryKey := Int(salary)][AgeKey := Int(age)]
           == CreateRequestBody(name, salary, age);
  }
}

# Employee service core, in Dafny

This project models the decision logic of a small Spring service. The service
sits in front of a third-party employee REST API
(`https://dummy.restapiexample.com/api/v1`). It can list employees, search
them by name, look one up by id, report the highest salary and the ten best
paid, and create or delete an employee. Each operation makes at most two HTTP
calls upstream; create makes none when a field does not parse. When the upstream API answers a listing or a lookup with a
non-2xx status, the service substitutes a built-in dataset of 24 employees. A
non-2xx answer to a create gives FAILURE instead, and a non-2xx answer to a
delete fails the request.

The model covers what happens once an upstream call has returned:

- **`Employees`** (`employee.dfy`) holds the employee record and the two
  salary comparators.
- **`EmployeeUtil`** (`employee_util.dfy`) holds the repository logic:
  - listing, with the fallback dataset as a constant;
  - lookup by id, with its fallback filter and its not-found rule;
  - the create and delete decisions, which depend on the upstream `status`
    string;
  - the extraction of name, age and salary from an untyped creation map,
    where the short key wins over the `employee_*` key.
- **`EmployeeController`** (`controller.dfy`) holds the request handlers:
  - name search, as the regular expression `(?i).*s.*`;
  - highest salary, as `Stream.max`;
  - top ten, as a stable `Stream.sorted` followed by `limit(10)`;
  - the order in which the create handler extracts its fields.
- **`Text`** (`text.dfy`) holds the Java string functions the service relies
  on, restricted to ASCII: `toUpperCase`, case-insensitive matching,
  `String.valueOf`, and `Integer.parseInt` / `Long.parseLong`.
- **`Outcomes`** (`outcomes.dfy`) holds the shared types:
  - the error kinds (not found, IOException, NumberFormatException, a null
    status, an unknown status name);
  - the upstream reply, which is an input;
  - the request sent, which is an output.
- **`FallbackFacts`** (`fallback_facts.dfy`) proves the facts the application
  tests check on the fallback dataset.

Upstream calls are not performed. Each call is represented twice:

- The reply it received is a parameter: a transport failure, a non-2xx
  status, or a 2xx status with its parsed `data` or `status` field.
- The request it sent is part of the result.

So "no DELETE is sent when the id is not found" can be stated directly.
`getEmployeeById`, `createEmployee` and `deleteEmployee` are imperative in
the source (a local assigned in one of two branches, early returns, throws).
They are methods. Each is proved equal to a ghost specification function, and
the properties are proved about that function. The list queries are single
stream pipelines, so they are functions.

Where the code and its own comments disagree, the model follows the code:

- The comment on the built-in dataset
  (src/main/java/com/example/rqchallenge/util/EmployeeUtil.java:216-217) says
  it is used whenever upstream calls fail. In the code, only a reply with a
  non-2xx status leads to it. A transport failure
  throws IOException out of `HttpUtil.execute`, the exception is not caught,
  and the request fails. `AllEmployees` and `ByIdOutcome` model that.
- The fallback filter in `getEmployeeById` parses the id once per record. The
  dataset is never empty, so a malformed id always throws
  NumberFormatException, and the model parses it once.

## Model

| member | source | states |
|---|---|---|
| Employees.Compare | src/main/java/com/example/rqchallenge/entity/Employee.java:28 | `Integer.compare` returns -1, 0 or 1, and is negative or zero exactly when the first argument is smaller or equal |
| Employees.DescendingCompare | src/main/java/com/example/rqchallenge/entity/Employee.java:27-29 | negative exactly when the first employee earns more, zero exactly when the salaries are equal, positive exactly when the first earns less |
| Employees.AscendingCompare | src/main/java/com/example/rqchallenge/entity/Employee.java:31-33 | negative exactly when the first employee earns less, zero exactly when the salaries are equal, positive exactly when the first earns more |
| Employees.ComparatorsAreReverses | src/main/java/com/example/rqchallenge/entity/Employee.java:27-33 | the sign of `descending(a, b)` equals the sign of `ascending(b, a)` and is the opposite of the sign of `ascending(a, b)` |
| Employees.ComparatorsAreValid | src/main/java/com/example/rqchallenge/entity/Employee.java:9-33 | both comparators meet the `Comparator` contract (sign antisymmetry, transitivity, equal elements compare alike), and id, name, age and image never affect them |
| Text.UpperChar | src/main/java/com/example/rqchallenge/util/EmployeeUtil.java:106-108 | a lower-case ASCII letter becomes its upper-case letter; every other character is unchanged; no result is a lower-case letter |
| Text.ToUpper | src/main/java/com/example/rqchallenge/util/EmployeeUtil.java:106-108 | `toUpperCase` keeps the length and upper-cases each character on its own |
| Text.FoldChar | src/main/java/com/example/rqchallenge/employees/EmployeeControllerImpl.java:37-38 | the case folding of `(?i)`: an upper-case ASCII letter becomes its lower-case letter, nothing else changes |
| Text.UpperEqualsIffSameIgnoringCase | src/main/java/com/example/rqchallenge/util/EmployeeUtil.java:176-180 | comparing `s.toUpperCase()` with an upper-case constant holds exactly when `s` equals that constant ignoring ASCII case |
| Text.ParseInteger | src/main/java/com/example/rqchallenge/util/EmployeeUtil.java:202-212 | `parseInt`/`parseLong` succeed exactly on an optional sign followed by one or more digits whose signed value lies in the type's range, and then return that value; any other text, including the empty string, a lone sign or a letter, fails with NumberFormatException carrying the input |
| Text.ParseIntegerRendersBack | src/main/java/com/example/rqchallenge/util/EmployeeUtil.java:202-212 | a successful parse, rendered back in decimal, gives the input without its '+' sign and leading zeros (and "0" for "-0") |
| Text.ParseIntegerOfDecimal | src/main/java/com/example/rqchallenge/util/EmployeeUtil.java:146 | parsing the decimal text of `n` gives back `n` exactly when `n` is in range, and fails otherwise |
| Text.ValueOf | src/main/java/com/example/rqchallenge/util/EmployeeUtil.java:198-199 | `String.valueOf` of null is the text "null"; of a string it is that string; of an integer its decimal text with a minus sign when negative; of a boolean "true" or "false" |
| Text.ValueOfParses | src/main/java/com/example/rqchallenge/util/EmployeeUtil.java:203-205 | the text of an integer value parses back to it when it fits an `int`; null and boolean values always fail to parse |
| EmployeeUtil.StatusName | src/main/java/com/example/rqchallenge/util/EmployeeUtil.java:180 | `ResponseStatus.SUCCESS.name()` is "SUCCESS" and FAILURE's name is "FAILURE"; both are their own upper-case form, so an upper-cased status can equal them |
| EmployeeUtil.StatusNameRoundTrip | src/main/java/com/example/rqchallenge/util/EmployeeUtil.java:110 | `valueOf` of a constant's name gives back that constant |
| EmployeeUtil.StatusValueOf | src/main/java/com/example/rqchallenge/util/EmployeeUtil.java:110 | `ResponseStatus.valueOf` succeeds exactly on "SUCCESS" and "FAILURE", returns the constant of that name, and otherwise fails naming the text |
| EmployeeUtil.AllEmployees | src/main/java/com/example/rqchallenge/util/EmployeeUtil.java:55-76 | fails (IOException) exactly on a transport failure; a non-2xx reply gives exactly the fallback dataset; a 2xx reply gives its `data`, and the result is null exactly when that `data` is null |
| EmployeeUtil.WithId | src/main/java/com/example/rqchallenge/util/EmployeeUtil.java:144-147 | the filter keeps only records with the requested id, keeps each of them, and keeps their original order |
| EmployeeUtil.WithIdKeepsMultiplicity | src/main/java/com/example/rqchallenge/util/EmployeeUtil.java:144-147 | each record with the requested id appears in the result as often as in the list, and no other record appears; with `WithId`'s order this pins the result down |
| EmployeeUtil.WithIdConsecutive | src/main/java/com/example/rqchallenge/util/EmployeeUtil.java:144-147 | on a list whose ids count up from `first`, the filter finds the one record at the matching position, or nothing when the id is out of range |
| EmployeeUtil.FallbackCandidates | src/main/java/com/example/rqchallenge/util/EmployeeUtil.java:143-147 | fails with NumberFormatException exactly when the id is not a decimal long; otherwise every candidate comes from the fallback dataset, has the requested id, and keeps its dataset order |
| EmployeeUtil.FallbackLookup | src/main/java/com/example/rqchallenge/util/EmployeeUtil.java:143-154 | an unparsable id fails with NumberFormatException; otherwise the result is the first fallback candidate (`get(0)`), and when no record has the id it is "No entity found with id : " + id |
| EmployeeUtil.ByIdOutcome | src/main/java/com/example/rqchallenge/util/EmployeeUtil.java:127-154 | IOException exactly on a transport failure; after a 2xx reply, the first employee of `data`, and not found exactly when `data` is null or empty; after a non-2xx reply, an unparsable id fails, success holds exactly when some dataset record has the parsed id, the result is then the first fallback candidate, and otherwise it is not-found; every not-found message is "No entity found with id : " + id |
| EmployeeUtil.GetEmployeeById | src/main/java/com/example/rqchallenge/util/EmployeeUtil.java:121-155 | sends exactly one GET to `/employee/<id>` and returns `ByIdOutcome` |
| EmployeeUtil.CreateRequestBody | src/main/java/com/example/rqchallenge/util/EmployeeUtil.java:88-92 | the posted JSON object has exactly the keys "name", "salary" and "age", holding the name and the two integers |
| EmployeeUtil.CreateOutcome | src/main/java/com/example/rqchallenge/util/EmployeeUtil.java:101-112 | IOException exactly on a transport failure; FAILURE after a non-2xx reply; a null status fails; otherwise SUCCESS or FAILURE exactly when the status equals that name ignoring case, and any other status fails naming its upper-cased text |
| EmployeeUtil.CreateEmployee | src/main/java/com/example/rqchallenge/util/EmployeeUtil.java:87-113 | sends exactly one POST to `/create` carrying {name, salary, age} and returns `CreateOutcome` |
| EmployeeUtil.DeleteOutcome | src/main/java/com/example/rqchallenge/util/EmployeeUtil.java:171-184 | succeeds exactly when the reply is 2xx with a status equal to "SUCCESS" ignoring case, and then returns the employee's name; a transport failure gives IOException; a null status fails; every other reply gives "Failed to delete employee with id : " + id |
| EmployeeUtil.DeleteEmployee | src/main/java/com/example/rqchallenge/util/EmployeeUtil.java:163-185 | a failed lookup returns the lookup's error, and only the GET was sent (no DELETE); otherwise sends the GET and then a DELETE to `/delete/<id>` and returns `DeleteOutcome` for the employee found |
| EmployeeUtil.Lookup | src/main/java/com/example/rqchallenge/util/EmployeeUtil.java:199 | `Map.get` returns the value under a present key and null for an absent one |
| EmployeeUtil.ExtractName | src/main/java/com/example/rqchallenge/util/EmployeeUtil.java:196-200 | the text under "name" whenever that key is present, even if "employee_name" is present too; else the text under "employee_name"; and "null" when neither key is present |
| EmployeeUtil.ExtractAge | src/main/java/com/example/rqchallenge/util/EmployeeUtil.java:202-206 | the `parseInt` of the text under "age" when present, else under "employee_age"; when neither key is present it fails with NumberFormatException on "null"; a result is always a Java `int` |
| EmployeeUtil.ExtractSalary | src/main/java/com/example/rqchallenge/util/EmployeeUtil.java:208-212 | the same as `ExtractAge` for "salary" and "employee_salary" |
| EmployeeUtil.ShortKeysReadBack | src/main/java/com/example/rqchallenge/util/EmployeeUtil.java:187-212 | a map that holds name, salary and age under the short keys reads back exactly those values, whatever else it holds |
| EmployeeUtil.LongKeysReadBack | src/main/java/com/example/rqchallenge/util/EmployeeUtil.java:187-212 | a map that holds them only under the `employee_*` keys reads back exactly those values |
| EmployeeUtil.CreateRequestBodyRoundTrip | src/main/java/com/example/rqchallenge/util/EmployeeUtil.java:88-92 | the body that `createEmployee` posts extracts back to the posted name, salary and age |
| EmployeeController.MatchesSearch | src/main/java/com/example/rqchallenge/employees/EmployeeControllerImpl.java:37-38 | `matches("(?i).*" + s + ".*")`: a match needs a name at least as long as `s`, and the empty search string matches exactly the names without a line terminator (`.` does not match one) |
| EmployeeController.SearchByName | src/main/java/com/example/rqchallenge/employees/EmployeeControllerImpl.java:34-39 | an employee is in the result exactly when it is in the list and its name matches `(?i).*s.*` |
| EmployeeController.MatchesIsContainment | src/main/java/com/example/rqchallenge/employees/EmployeeControllerImpl.java:37-38 | on a name without line terminators, the pattern matches exactly when the name contains `s` ignoring ASCII case |
| EmployeeController.SearchIsContainmentFilter | src/main/java/com/example/rqchallenge/employees/EmployeeControllerImpl.java:35-39 | over single-line names, search keeps exactly the employees whose name contains the search string ignoring case |
| EmployeeController.SearchPreservesOrder | src/main/java/com/example/rqchallenge/employees/EmployeeControllerImpl.java:35-39 | the result is a sublist of the input (no element added or reordered), so it is no longer than the input |
| EmployeeController.SearchKeepsMultiplicity | src/main/java/com/example/rqchallenge/employees/EmployeeControllerImpl.java:35-39 | each matching employee appears as often as in the input, and no other employee appears |
| EmployeeController.SearchUnfold | src/main/java/com/example/rqchallenge/employees/EmployeeControllerImpl.java:35-39 | the filter keeps the first employee exactly when it matches, then filters the rest |
| EmployeeController.SearchAppend | src/main/java/com/example/rqchallenge/employees/EmployeeControllerImpl.java:35-39 | filtering a concatenation gives the concatenation of the filtered parts |
| EmployeeController.SearchSkipsPrefix | src/main/java/com/example/rqchallenge/employees/EmployeeControllerImpl.java:35-39 | leading employees whose names do not match are dropped |
| EmployeeController.FirstMatchLeads | src/main/java/com/example/rqchallenge/employees/EmployeeControllerImpl.java:35-39 | the first matching employee of the list heads the result |
| EmployeeController.MissingLetterNoMatch | src/main/java/com/example/rqchallenge/employees/EmployeeControllerImpl.java:37-38 | a name that lacks some letter of the search string, in both cases, does not match |
| EmployeeController.MaxBySalary | src/main/java/com/example/rqchallenge/employees/EmployeeControllerImpl.java:55-59 | `Stream.max` as a fold of `maxBy`: the result is one of the employees and earns at least as much as each of them |
| EmployeeController.HighestSalary | src/main/java/com/example/rqchallenge/employees/EmployeeControllerImpl.java:51-65 | NOT_FOUND (no value) exactly on an empty list; otherwise a salary that is at least every employee's salary and is some employee's salary |
| EmployeeController.TopEarnerIsHighest | src/main/java/com/example/rqchallenge/employees/EmployeeControllerImpl.java:51-61 | an employee who earns at least as much as everyone determines the reported highest salary |
| EmployeeController.InsertBySalary | src/main/java/com/example/rqchallenge/employees/EmployeeControllerImpl.java:73 | inserting into a sorted sequence keeps it sorted by descending salary; the result adds exactly that one employee; the employee goes before the others of its salary, which all came later in the input |
| EmployeeController.SortBySalaryDescending | src/main/java/com/example/rqchallenge/employees/EmployeeControllerImpl.java:73 | sorted by descending salary, a permutation of the input, and stable (each salary class keeps its input order) |
| EmployeeController.StableSortIsUnique | src/main/java/com/example/rqchallenge/employees/EmployeeControllerImpl.java:73 | two sequences sorted by descending salary with the same salary classes are equal |
| EmployeeController.AnyStableSortAgrees | src/main/java/com/example/rqchallenge/employees/EmployeeControllerImpl.java:73 | any stable descending sort of the list, such as the library's merge sort, equals the modelled sort |
| EmployeeController.CutOffEarnsLess | src/main/java/com/example/rqchallenge/employees/EmployeeControllerImpl.java:74 | `limit(k)` on a sorted sequence keeps a sub-multiset, and everything cut off earns no more than the last employee kept |
| EmployeeController.PrefixClasses | src/main/java/com/example/rqchallenge/employees/EmployeeControllerImpl.java:73-74 | a prefix keeps, within each salary class, a prefix of that class |
| EmployeeController.TopTenBySalary | src/main/java/com/example/rqchallenge/employees/EmployeeControllerImpl.java:69-78 | length `min(10, n)`; sorted by descending salary; a sub-multiset of the input; every employee left out earns no more than the last one kept; equal salaries keep their input order |
| EmployeeController.UniqueTopEarnerLeads | src/main/java/com/example/rqchallenge/employees/EmployeeControllerImpl.java:71-75 | an employee who earns strictly more than everyone else heads the top ten |
| EmployeeController.CreateEmployee | src/main/java/com/example/rqchallenge/employees/EmployeeControllerImpl.java:80-88 | an age that does not parse ends the request, with nothing sent; then so does a salary that does not parse; otherwise posts the extracted name, salary and age and returns `CreateOutcome` |
| FallbackFacts.FallbackListing | src/main/java/com/example/rqchallenge/util/EmployeeUtil.java:219-399 | after a non-2xx reply the listing is the fallback dataset: 24 records with ids 1..24 in order |
| FallbackFacts.FallbackLookupFinds | src/main/java/com/example/rqchallenge/util/EmployeeUtil.java:138-154 | on the fallback path the decimal id k, for 1 <= k <= 24, resolves to the k-th record |
| FallbackFacts.FallbackLookupMisses | src/main/java/com/example/rqchallenge/util/EmployeeUtil.java:138-154 | on the fallback path any other long id is not found, with message "No entity found with id : " + id |
| FallbackFacts.FallbackIdFour | src/test/java/com/example/rqchallenge/RqChallengeApplicationTests.java:63-78 | id "4" is Cedric Kelly, salary 433060, age 22 |
| FallbackFacts.PaulByrdEarnsMost | src/main/java/com/example/rqchallenge/util/EmployeeUtil.java:219-399 | Paul Byrd (id 17, salary 725000) is in the dataset, and every other record earns strictly less |
| FallbackFacts.FallbackHighestSalary | src/test/java/com/example/rqchallenge/RqChallengeApplicationTests.java:94-104 | the highest salary of the fallback dataset is 725000 |
| FallbackFacts.FallbackTopTen | src/test/java/com/example/rqchallenge/RqChallengeApplicationTests.java:80-92 | the top ten of the fallback dataset has 10 entries and is led by Paul Byrd with salary 725000 |
| FallbackFacts.FallbackSearchPaul | src/test/java/com/example/rqchallenge/RqChallengeApplicationTests.java:106-119 | searching the fallback dataset for "Paul" gives Paul Byrd, age 64, first |

## Left out

- HTTP transport (OkHttp, 15 s timeouts, the mutable URL fields of `HttpUtil`): every call's reply is given as input. The requests of lookup, create and delete are recorded as output; the listing's GET to `/employees` is not recorded, since nothing is decided about it.
- JSON parsing and rendering (Jackson, json-simple): the parsed `data` list (or null) and the `status` text (or null) are given as input. Not modelled: a missing `data` key, a single object accepted as a one-element array, and malformed JSON.
- The fallback dataset is given as its 24 parsed records, not as the JSON text in the source.
- `getEmployeeListFromString` is not part of this model, since it only calls the JSON library.
- EmployeeController.SearchByName: modelled only for search strings without regular-expression metacharacters (its precondition). With metacharacters the search string is a pattern, and the regular-expression engine is not modelled.
- Text.ToUpper: ASCII only. Locale-dependent and non-ASCII upper-casing (for example 'ß' to "SS") is not modelled.
- Text.ParseInteger: accepts ASCII digits only. `Integer.parseInt` also accepts other Unicode decimal digits.
- Employee ids are Java `Long` objects, modelled as integers: a record with a null id cannot be represented. The fallback filter only sees the built-in dataset, whose ids are all set, so the filter is unaffected.
- Employee names are Java strings that may be null; here they are never null. A null `employee_name` in a 2xx listing makes search throw NullPointerException, which is not modelled.
- The list handlers (search, highest salary, top ten) are functions of a non-null list. A 2xx listing with `"data": null` makes `AllEmployees` return null, and those handlers then throw NullPointerException; that throw is not modelled.
- Floating-point values in the creation map are not modelled: the map's values are null, text, integers and booleans. For a `Double` such as 23.0, `String.valueOf` gives "23.0", which `parseInt` rejects.
- Salary and age are Java `int`: records are not restricted to that range, and no arithmetic is done on them, so no wrap-around arises.
- `getHighestSalaryOfEmployees` fetches the list twice, once for the emptiness test and once for the maximum. Against a live upstream the two lists could differ; the model uses one list.
- The mapping of errors and results to HTTP responses is not modelled (`GlobalExceptionHandler`, `ResponseEntityBuilder`, status codes 200/201/404, timestamps).
- Logging and the `RuntimeException` for an unparsable built-in dataset are not modelled, since the dataset is a constant here.
- Constants.java is used only for its key names and paths; TestUtil.java is not part of this model.
- `getAllEmployees` and `getEmployeeById` in the controller only forward to the repository functions modelled above.

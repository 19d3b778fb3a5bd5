/** The request handlers: name search, highest salary, top ten earners and the
    creation handler. Each list query is a function of the employee list that
    `getAllEmployeesList` produced. */
module EmployeeController {
  import opened Outcomes
  import opened Text
  import opened Employees
  import opened EmployeeUtil

  // ----- search -----

  /** Characters with a meaning in a regular expression outside a class. */
  predicate IsRegexMeta(c: char) {
    c in "\\^$.|?*+()[]{}"
  }

  predicate NoRegexMeta(s: string) {
    forall i :: 0 <= i < |s| ==> !IsRegexMeta(s[i])
  }

  /** The characters `.` does not match without DOTALL. */
  predicate IsLineTerminator(c: char) {
    c == '\n' || c == '\r' || c == '\U{0085}' || c == '\U{2028}' || c == '\U{2029}'
  }

  predicate NoLineTerminator(s: string) {
    forall i :: 0 <= i < |s| ==> !IsLineTerminator(s[i])
  }

  /** `name.matches("(?i).*" + s + ".*")` for a search string without
      metacharacters: a leading `.*` skips characters other than line
      terminators, then `s` matches ignoring ASCII case, then a trailing `.*`
      consumes the rest, which must hold no line terminator. A match needs
      at least `|s|` characters, and the empty search string matches exactly
      the names without a line terminator. */
  predicate MatchesSearch(name: string, s: string): (b: bool)
    ensures b ==> |s| <= |name|
    ensures s == [] ==> (b <==> NoLineTerminator(name))
    decreases |name|
  {
    || (|s| <= |name| && SameIgnoringCase(name[..|s|], s) && NoLineTerminator(name[|s|..]))
    || (name != [] && !IsLineTerminator(name[0]) && MatchesSearch(name[1..], s))
  }

  /** `s` occurs in `name` at position `i`, ignoring ASCII case. */
  predicate OccursAt(name: string, s: string, i: int) {
    0 <= i <= |name| - |s| && SameIgnoringCase(name[i..i + |s|], s)
  }

  /** `s` occurs in `name` ignoring ASCII case. */
  ghost predicate ContainsIgnoringCase(name: string, s: string) {
    exists i :: OccursAt(name, s, i)
  }

  /** On a single-line name the pattern is exactly case-insensitive substring
      containment. */
  lemma {:induction false} MatchesIsContainment(name: string, s: string)
    requires NoLineTerminator(name)
    ensures MatchesSearch(name, s) <==> ContainsIgnoringCase(name, s)
    decreases |name|
  {
    if |s| <= |name| && SameIgnoringCase(name[..|s|], s) {
      assert name[0..0 + |s|] == name[..|s|];
      assert OccursAt(name, s, 0);
      assert NoLineTerminator(name[|s|..]);
    } else if name != [] {
      MatchesIsContainment(name[1..], s);
      if ContainsIgnoringCase(name[1..], s) {
        var i :| OccursAt(name[1..], s, i);
        assert name[i + 1..i + 1 + |s|] == name[1..][i..i + |s|];
        assert OccursAt(name, s, i + 1);
      }
      if ContainsIgnoringCase(name, s) {
        var i :| OccursAt(name, s, i);
        assert i != 0 by {
          assert name[0..0 + |s|] == name[..|s|];
        }
        assert name[1..][i - 1..i - 1 + |s|] == name[i..i + |s|];
        assert OccursAt(name[1..], s, i - 1);
      }
    } else {
      assert |s| > 0 by {
        assert SameIgnoringCase(name[..0], []);
      }
    }
  }

  /** `getEmployeesByNameSearch`: the employees whose name matches, in list
      order, each kept as often as it occurs. */
  function SearchByName(list: seq<Employee>, s: string): (r: seq<Employee>)
    requires NoRegexMeta(s)
    ensures forall e :: e in r <==> e in list && MatchesSearch(e.name, s)
  {
    if list == [] then []
    else
      var first, rest := list[0], SearchByName(list[1..], s);
      assert list == [first] + list[1..];
      if MatchesSearch(first.name, s) then
        assert ([first] + rest)[1..] == rest;
        [first] + rest
      else
        rest
  }

  /** Search never adds or reorders: its result is a sublist of the input,
      hence no longer than it. */
  lemma {:induction false} SearchPreservesOrder(list: seq<Employee>, s: string)
    requires NoRegexMeta(s)
    ensures IsSubsequence(SearchByName(list, s), list)
    ensures |SearchByName(list, s)| <= |list|
    decreases |list|
  {
    if list != [] {
      SearchPreservesOrder(list[1..], s);
      SearchUnfold(list, s);
    }
    SubsequenceShorter(SearchByName(list, s), list);
  }

  /** Over single-line names, search keeps exactly the employees whose name
      contains the search string ignoring ASCII case. */
  lemma SearchIsContainmentFilter(list: seq<Employee>, s: string)
    requires NoRegexMeta(s)
    requires forall e :: e in list ==> NoLineTerminator(e.name)
    ensures forall e :: e in SearchByName(list, s) <==> e in list && ContainsIgnoringCase(e.name, s)
  {
    forall e | e in list {
      MatchesIsContainment(e.name, s);
    }
  }

  lemma SearchUnfold(list: seq<Employee>, s: string)
    requires NoRegexMeta(s) && list != []
    ensures SearchByName(list, s)
            == (if MatchesSearch(list[0].name, s) then [list[0]] else []) + SearchByName(list[1..], s)
  {
  }

  /** A character folds to `FoldChar(d)` only if it is that character or its
      upper-case form. */
  lemma FoldCharInverse(c: char, d: char)
    requires FoldChar(c) == FoldChar(d)
    ensures c == FoldChar(d) || c == UpperChar(FoldChar(d))
  {
  }

  /** A name that lacks some letter of the search string, in both cases,
      does not match. */
  lemma {:induction false} MissingLetterNoMatch(name: string, s: string, j: nat)
    requires j < |s|
    requires FoldChar(s[j]) !in name && UpperChar(FoldChar(s[j])) !in name
    ensures !MatchesSearch(name, s)
    decreases |name|
  {
    if |s| <= |name| && SameIgnoringCase(name[..|s|], s) {
      assert FoldChar(name[j]) == FoldChar(s[j]);
      FoldCharInverse(name[j], s[j]);
    }
    if name != [] {
      assert forall c :: c in name[1..] ==> c in name;
      MissingLetterNoMatch(name[1..], s, j);
    }
  }

  /** Employees at the front of the list that do not match are skipped. */
  lemma {:induction false} SearchSkipsPrefix(list: seq<Employee>, s: string, k: nat)
    requires NoRegexMeta(s) && k <= |list|
    requires forall j :: 0 <= j < k ==> !MatchesSearch(list[j].name, s)
    ensures SearchByName(list, s) == SearchByName(list[k..], s)
    decreases k
  {
    if k > 0 {
      SearchUnfold(list, s);
      assert list[1..][k - 1..] == list[k..];
      SearchSkipsPrefix(list[1..], s, k - 1);
    }
  }

  /** The first matching employee heads the search result. */
  lemma FirstMatchLeads(list: seq<Employee>, s: string, k: nat)
    requires NoRegexMeta(s) && k < |list|
    requires forall j :: 0 <= j < k ==> !MatchesSearch(list[j].name, s)
    requires MatchesSearch(list[k].name, s)
    ensures SearchByName(list, s) != []
    ensures SearchByName(list, s)[0] == list[k]
  {
    SearchSkipsPrefix(list, s, k);
    SearchUnfold(list[k..], s);
  }

  /** `NoLineTerminator` as five membership tests: a solver aid, since on a
      literal name membership is cheap to decide while the quantifier is not. */
  predicate NoLineTerminatorChar(t: string) {
    '\n' !in t && '\r' !in t && '\U{0085}' !in t && '\U{2028}' !in t && '\U{2029}' !in t
  }

  /** The membership form implies `NoLineTerminator`. */
  lemma NoLineTerminatorByChars(t: string)
    requires NoLineTerminatorChar(t)
    ensures NoLineTerminator(t)
  {
    forall i | 0 <= i < |t|
      ensures !IsLineTerminator(t[i])
    {
      assert t[i] in t;
    }
  }

  /** Search keeps every matching employee as often as the list holds it,
      and no other. */
  lemma {:induction false} SearchKeepsMultiplicity(list: seq<Employee>, s: string, e: Employee)
    requires NoRegexMeta(s)
    ensures multiset(SearchByName(list, s))[e] == if MatchesSearch(e.name, s) then multiset(list)[e] else 0
    decreases |list|
  {
    if list != [] {
      var first, rest := list[0], list[1..];
      SearchKeepsMultiplicity(rest, s, e);
      SearchUnfold(list, s);
      assert list == [first] + rest;
      var kept := if MatchesSearch(first.name, s) then [first] else [];
      assert multiset(SearchByName(list, s)) == multiset(kept) + multiset(SearchByName(rest, s));
      assert multiset(list) == multiset{first} + multiset(rest);
    }
  }

  /** Search distributes over concatenation. */
  lemma {:induction false} SearchAppend(a: seq<Employee>, b: seq<Employee>, s: string)
    requires NoRegexMeta(s)
    ensures SearchByName(a + b, s) == SearchByName(a, s) + SearchByName(b, s)
    decreases |a|
  {
    if a == [] {
      assert a + b == b;
    } else {
      assert (a + b)[0] == a[0];
      assert (a + b)[1..] == a[1..] + b;
      SearchUnfold(a, s);
      SearchUnfold(a + b, s);
      SearchAppend(a[1..], b, s);
    }
  }

  // ----- highest salary -----

  /** `Stream.max` with the ascending comparator, a left fold of
      `BinaryOperator.maxBy`: the accumulator stays unless the next employee
      compares strictly greater. */
  function MaxBySalary(acc: Employee, rest: seq<Employee>): (m: Employee)
    ensures m == acc || m in rest
    ensures acc.salary <= m.salary
    ensures forall e :: e in rest ==> e.salary <= m.salary
    decreases |rest|
  {
    if rest == [] then acc
    else MaxBySalary(if AscendingCompare(acc, rest[0]) >= 0 then acc else rest[0], rest[1..])
  }

  /** `getHighestSalaryOfEmployees`: NOT_FOUND (None) on an empty list,
      otherwise the largest salary, which some employee earns. */
  function HighestSalary(list: seq<Employee>): (r: Option<int>)
    ensures r.None? <==> list == []
    ensures r.Some? ==> forall e :: e in list ==> e.salary <= r.value
    ensures r.Some? ==> exists e :: e in list && e.salary == r.value
  {
    if list == [] then None
    else
      var top := MaxBySalary(list[0], list[1..]);
      assert top in list;
      Some(top.salary)
  }

  // ----- top ten -----

  const TopLimit := 10

  predicate SortedBySalaryDescending(s: seq<Employee>) {
    forall i, j :: 0 <= i < j < |s| ==> s[i].salary >= s[j].salary
  }

  /** The employees of `s` earning exactly `v`, in order; stability of a sort
      means these sublists are unchanged for every `v`. */
  function WithSalary(s: seq<Employee>, v: int): seq<Employee> {
    if s == [] then [] else (if s[0].salary == v then [s[0]] else []) + WithSalary(s[1..], v)
  }

  lemma {:induction false} WithSalaryMembers(s: seq<Employee>, v: int)
    ensures forall e :: e in WithSalary(s, v) <==> e in s && e.salary == v
    decreases |s|
  {
    if s != [] {
      WithSalaryMembers(s[1..], v);
      assert s == [s[0]] + s[1..];
    }
  }

  lemma {:induction false} WithSalaryAppend(a: seq<Employee>, b: seq<Employee>, v: int)
    ensures WithSalary(a + b, v) == WithSalary(a, v) + WithSalary(b, v)
    decreases |a|
  {
    if a != [] {
      assert (a + b)[0] == a[0];
      assert (a + b)[1..] == a[1..] + b;
      WithSalaryAppend(a[1..], b, v);
    } else {
      assert a + b == b;
    }
  }

  lemma WithSalaryCons(y: Employee, t: seq<Employee>, v: int)
    ensures WithSalary([y] + t, v) == (if y.salary == v then [y] else []) + WithSalary(t, v)
  {
    assert ([y] + t)[0] == y && ([y] + t)[1..] == t;
  }

  /** Putting an employee who earns at least as much as everyone in a sorted
      sequence in front of it keeps it sorted. */
  lemma ConsSorted(y: Employee, t: seq<Employee>)
    requires SortedBySalaryDescending(t)
    requires forall e :: e in t ==> e.salary <= y.salary
    ensures SortedBySalaryDescending([y] + t)
  {
    forall i, j | 0 <= i < j < |[y] + t|
      ensures ([y] + t)[i].salary >= ([y] + t)[j].salary
    {
      assert ([y] + t)[j] == t[j - 1];
      if i > 0 {
        assert ([y] + t)[i] == t[i - 1];
      }
    }
  }

  /** Insertion at the front: `x` ranks at or above the head of `s`. */
  lemma InsertAtFront(x: Employee, s: seq<Employee>)
    requires SortedBySalaryDescending(s)
    requires s == [] || x.salary >= s[0].salary
    ensures SortedBySalaryDescending([x] + s)
    ensures forall v :: WithSalary([x] + s, v) == (if x.salary == v then [x] else []) + WithSalary(s, v)
  {
    forall e | e in s
      ensures e.salary <= x.salary
    {
      var k :| 0 <= k < |s| && s[k] == e;
      assert s[0].salary >= s[k].salary;
    }
    ConsSorted(x, s);
    forall v
      ensures WithSalary([x] + s, v) == (if x.salary == v then [x] else []) + WithSalary(s, v)
    {
      WithSalaryCons(x, s, v);
    }
  }

  /** Insertion behind the head: `x` ranks strictly below the head of `s` and
      has already been inserted into the tail, giving `rest`. */
  lemma InsertBehindHead(x: Employee, s: seq<Employee>, rest: seq<Employee>)
    requires SortedBySalaryDescending(s) && s != [] && x.salary < s[0].salary
    requires SortedBySalaryDescending(rest)
    requires multiset(rest) == multiset(s[1..]) + multiset{x}
    ensures SortedBySalaryDescending([s[0]] + rest)
    ensures multiset([s[0]] + rest) == multiset(s) + multiset{x}
  {
    var head, tail := s[0], s[1..];
    assert s == [head] + tail;
    forall e | e in rest
      ensures e.salary <= head.salary
    {
      assert e in multiset(rest);
      if e != x {
        assert e in multiset(tail);
        var k :| 0 <= k < |tail| && tail[k] == e;
        assert s[k + 1] == e;
      }
    }
    ConsSorted(head, rest);
  }

  /** The salary classes after inserting behind the head: the head and `x`
      cannot share a salary, so `x` still comes first within its class. */
  lemma InsertBehindHeadClasses(x: Employee, s: seq<Employee>, rest: seq<Employee>)
    requires s != [] && x.salary < s[0].salary
    requires forall v :: WithSalary(rest, v) == (if x.salary == v then [x] else []) + WithSalary(s[1..], v)
    ensures forall v :: WithSalary([s[0]] + rest, v) == (if x.salary == v then [x] else []) + WithSalary(s, v)
  {
    forall v
      ensures WithSalary([s[0]] + rest, v) == (if x.salary == v then [x] else []) + WithSalary(s, v)
    {
      WithSalaryCons(s[0], rest, v);
      WithSalaryCons(s[0], s[1..], v);
      assert s == [s[0]] + s[1..];
    }
  }

  /** One insertion step of a stable sort under the descending comparator:
      `x` goes before the first employee it does not rank below, hence before
      every employee of equal salary already placed. */
  function InsertBySalary(x: Employee, s: seq<Employee>): (r: seq<Employee>)
    requires SortedBySalaryDescending(s)
    ensures SortedBySalaryDescending(r)
    ensures multiset(r) == multiset(s) + multiset{x}
    ensures forall v :: WithSalary(r, v) == (if x.salary == v then [x] else []) + WithSalary(s, v)
  {
    if s == [] || DescendingCompare(x, s[0]) <= 0 then
      InsertAtFront(x, s);
      [x] + s
    else
      var rest := InsertBySalary(x, s[1..]);
      InsertBehindHead(x, s, rest);
      InsertBehindHeadClasses(x, s, rest);
      [s[0]] + rest
  }

  /** `sorted(employeeSalaryDescendingComparator())`: a stable sort, here by
      insertion from the back of the list. */
  function SortBySalaryDescending(list: seq<Employee>): (r: seq<Employee>)
    ensures SortedBySalaryDescending(r)
    ensures multiset(r) == multiset(list)
    ensures forall v :: WithSalary(r, v) == WithSalary(list, v)
  {
    if list == [] then []
    else
      assert list == [list[0]] + list[1..];
      InsertBySalary(list[0], SortBySalaryDescending(list[1..]))
  }

  /** A sorted sequence is determined by its per-salary sublists: any two
      sequences sorted by descending salary that agree on every salary class
      are equal. */
  lemma {:induction false} StableSortIsUnique(a: seq<Employee>, b: seq<Employee>)
    requires SortedBySalaryDescending(a) && SortedBySalaryDescending(b)
    requires forall v :: WithSalary(a, v) == WithSalary(b, v)
    ensures a == b
    decreases |a|
  {
    if a == [] || b == [] {
      if a != [] {
        ClassOfHead(a);
      } else if b != [] {
        ClassOfHead(b);
      }
    } else {
      SameHeads(a, b);
      SameTailClasses(a, b);
      StableSortIsUnique(a[1..], b[1..]);
      assert a == [a[0]] + a[1..] && b == [b[0]] + b[1..];
    }
  }

  /** The head of a sequence opens its own salary class. */
  lemma ClassOfHead(a: seq<Employee>)
    requires a != []
    ensures WithSalary(a, a[0].salary) == [a[0]] + WithSalary(a[1..], a[0].salary)
  {
    WithSalaryCons(a[0], a[1..], a[0].salary);
    assert a == [a[0]] + a[1..];
  }

  /** Two sorted sequences with the same salary classes start alike. */
  lemma SameHeads(a: seq<Employee>, b: seq<Employee>)
    requires SortedBySalaryDescending(a) && SortedBySalaryDescending(b)
    requires a != [] && b != []
    requires forall v :: WithSalary(a, v) == WithSalary(b, v)
    ensures a[0] == b[0]
  {
    var m, n := a[0].salary, b[0].salary;
    ClassOfHead(a);
    ClassOfHead(b);
    WithSalaryMembers(b, m);
    assert a[0] in WithSalary(b, m);
    WithSalaryMembers(a, n);
    assert b[0] in WithSalary(a, n);
    assert m == n;
  }

  /** Dropping a common head keeps the salary classes equal. */
  lemma SameTailClasses(a: seq<Employee>, b: seq<Employee>)
    requires a != [] && b != [] && a[0] == b[0]
    requires forall v :: WithSalary(a, v) == WithSalary(b, v)
    ensures forall v :: WithSalary(a[1..], v) == WithSalary(b[1..], v)
  {
    forall v
      ensures WithSalary(a[1..], v) == WithSalary(b[1..], v)
    {
      WithSalaryCons(a[0], a[1..], v);
      WithSalaryCons(b[0], b[1..], v);
      assert a == [a[0]] + a[1..] && b == [b[0]] + b[1..];
      var p := if a[0].salary == v then [a[0]] else [];
      assert WithSalary(a[1..], v) == (p + WithSalary(a[1..], v))[|p|..];
      assert WithSalary(b[1..], v) == (p + WithSalary(b[1..], v))[|p|..];
    }
  }

  /** Any stable sort by descending salary, such as the merge sort behind
      `Stream.sorted`, returns exactly the sequence modelled here. */
  lemma AnyStableSortAgrees(list: seq<Employee>, sorted: seq<Employee>)
    requires SortedBySalaryDescending(sorted)
    requires forall v :: WithSalary(sorted, v) == WithSalary(list, v)
    ensures sorted == SortBySalaryDescending(list)
  {
    StableSortIsUnique(sorted, SortBySalaryDescending(list));
  }

  function Min(a: int, b: int): int { if a < b then a else b }

  /** Cutting a sorted sequence after `k` elements: everything cut off earns
      no more than the last element kept. */
  lemma CutOffEarnsLess(sorted: seq<Employee>, k: nat)
    requires SortedBySalaryDescending(sorted) && k <= |sorted|
    ensures multiset(sorted[..k]) <= multiset(sorted)
    ensures k > 0 ==> forall e :: e in multiset(sorted) - multiset(sorted[..k]) ==> e.salary <= sorted[k - 1].salary
  {
    assert sorted == sorted[..k] + sorted[k..];
    assert multiset(sorted) == multiset(sorted[..k]) + multiset(sorted[k..]);
    forall e | k > 0 && e in multiset(sorted) - multiset(sorted[..k])
      ensures e.salary <= sorted[k - 1].salary
    {
      assert e in sorted[k..];
    }
  }

  /** A prefix keeps, within each salary class, a prefix of that class. */
  lemma PrefixClasses(s: seq<Employee>, k: nat)
    requires k <= |s|
    ensures forall v :: WithSalary(s[..k], v) <= WithSalary(s, v)
  {
    assert s == s[..k] + s[k..];
    forall v
      ensures WithSalary(s[..k], v) <= WithSalary(s, v)
    {
      WithSalaryAppend(s[..k], s[k..], v);
    }
  }

  /** `getTopTenHighestEarningEmployeeNames`: the stable descending sort cut
      to its first ten employees. */
  function TopTenBySalary(list: seq<Employee>): (r: seq<Employee>)
    ensures |r| == Min(TopLimit, |list|)
    ensures SortedBySalaryDescending(r)
    ensures multiset(r) <= multiset(list)
    ensures r != [] ==> forall e :: e in multiset(list) - multiset(r) ==> e.salary <= r[|r| - 1].salary
    ensures forall v :: WithSalary(r, v) <= WithSalary(list, v)
  {
    var sorted := SortBySalaryDescending(list);
    assert |sorted| == |list| by {
      assert |multiset(sorted)| == |multiset(list)|;
    }
    var k := Min(TopLimit, |sorted|);
    CutOffEarnsLess(sorted, k);
    PrefixClasses(sorted, k);
    sorted[..k]
  }

  /** An employee who earns at least as much as everyone has the highest
      salary. */
  lemma TopEarnerIsHighest(list: seq<Employee>, x: Employee)
    requires x in list
    requires forall e :: e in list ==> e.salary <= x.salary
    ensures HighestSalary(list) == Some(x.salary)
  {
    var r := HighestSalary(list);
    var e :| e in list && e.salary == r.value;
  }

  /** An employee who earns strictly more than everyone else heads the top
      ten. */
  lemma UniqueTopEarnerLeads(list: seq<Employee>, x: Employee)
    requires x in list
    requires forall e :: e in list ==> e.salary <= x.salary
    requires forall e :: e in list && e.salary == x.salary ==> e == x
    ensures TopTenBySalary(list) != []
    ensures TopTenBySalary(list)[0] == x
  {
    var top := TopTenBySalary(list);
    assert top != [];
    assert top[0] in list by {
      assert top[0] in multiset(top);
    }
    var last := top[|top| - 1];
    assert last in list by {
      assert last in multiset(top);
    }
    assert x in top;
    var k :| 0 <= k < |top| && top[k] == x;
    assert top[0].salary >= top[k].salary;
  }

  // ----- create -----

  /** `createEmployee` handler: read name, then age, then salary from the
      request map (a parse failure ends the request before anything is sent),
      then create the employee upstream. */
  method CreateEmployee(input: map<string, Value>, reply: Reply<Option<string>>)
    returns (r: Result<ResponseStatus>, sent: seq<Request>)
    ensures ExtractAge(input).Err? ==> r == Err(ExtractAge(input).error) && sent == []
    ensures ExtractAge(input).Ok? && ExtractSalary(input).Err? ==>
              r == Err(ExtractSalary(input).error) && sent == []
    ensures ExtractAge(input).Ok? && ExtractSalary(input).Ok? ==>
              && sent == [Post(CreateUrl, CreateRequestBody(ExtractName(input), ExtractSalary(input).value, ExtractAge(input).value))]
              && r == CreateOutcome(reply)
  {
    var name := ExtractName(input);
    var age := ExtractAge(input);
    if age.Err? {
      return Err(age.error), [];
    }
    var salary := ExtractSalary(input);
    if salary.Err? {
      return Err(salary.error), [];
    }
    r, sent := EmployeeUtil.CreateEmployee(name, salary.value, age.value, reply);
  }
}

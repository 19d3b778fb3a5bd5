/** What the service answers when the upstream API replies non-2xx and every
    query runs on the 24-record fallback dataset. */
module FallbackFacts {
  import opened Outcomes
  import opened Text
  import opened Employees
  import opened EmployeeUtil
  import opened EmployeeController

  const PaulByrd := Employee(17, "Paul Byrd", 725000, 64, "")
  const CedricKelly := Employee(4, "Cedric Kelly", 433060, 22, "")

  /** Listing after a non-2xx reply gives the 24 fallback records, whose ids
      run 1..24 in order. */
  lemma FallbackListing()
    ensures AllEmployees(Unsuccessful) == Ok(Some(MockEmployees))
    ensures |MockEmployees| == 24
    ensures forall i :: 0 <= i < |MockEmployees| ==> MockEmployees[i].id == i + 1
  {
  }

  /** On the fallback path every id 1..24, written in decimal, resolves to
      the record at that position. */
  lemma FallbackLookupFinds(k: int)
    requires 1 <= k <= 24
    ensures ByIdOutcome(IntToDecimal(k), Unsuccessful) == Ok(MockEmployees[k - 1])
  {
    ParseIntegerOfDecimal(k, MinLong, MaxLong);
    FallbackListing();
    WithIdConsecutive(MockEmployees, 1, k);
  }

  /** On the fallback path any other well-formed id is not found. */
  lemma FallbackLookupMisses(k: int)
    requires MinLong <= k <= MaxLong && !(1 <= k <= 24)
    ensures ByIdOutcome(IntToDecimal(k), Unsuccessful) == Err(NotFound(NoEntityMessage(IntToDecimal(k))))
  {
    ParseIntegerOfDecimal(k, MinLong, MaxLong);
    FallbackListing();
    WithIdConsecutive(MockEmployees, 1, k);
  }

  /** Id "4" is Cedric Kelly, salary 433060, age 22.
      (The literal arrives as a parameter fixed by `requires`, so the
      verifier does not evaluate the search and lookup functions on it eagerly.) */
  lemma FallbackIdFour(id: string)
    requires id == "4"
    ensures ByIdOutcome(id, Unsuccessful) == Ok(CedricKelly)
    ensures CedricKelly.salary == 433060 && CedricKelly.age == 22
  {
    var k := 4;
    assert IntToDecimal(k) == id;
    assert MockEmployees[k - 1] == CedricKelly;
    FallbackLookupFinds(k);
  }

  lemma EarlierEarnLess()
    ensures forall j :: 0 <= j < 16 ==> MockEmployees[j].salary < PaulByrd.salary
  {
  }

  lemma LaterEarnLess()
    ensures forall j :: 17 <= j < 24 ==> MockEmployees[j].salary < PaulByrd.salary
  {
  }

  /** Paul Byrd earns strictly more than every other fallback record. */
  lemma PaulByrdEarnsMost()
    ensures PaulByrd in MockEmployees
    ensures forall e :: e in MockEmployees ==> e.salary <= PaulByrd.salary
    ensures forall e :: e in MockEmployees && e.salary == PaulByrd.salary ==> e == PaulByrd
  {
    FallbackListing();
    EarlierEarnLess();
    LaterEarnLess();
    assert MockEmployees[16] == PaulByrd;
    forall e | e in MockEmployees
      ensures e.salary <= PaulByrd.salary
      ensures e.salary == PaulByrd.salary ==> e == PaulByrd
    {
      var j :| 0 <= j < |MockEmployees| && MockEmployees[j] == e;
    }
  }

  /** The highest salary of the fallback dataset is 725000. */
  lemma FallbackHighestSalary()
    ensures HighestSalary(MockEmployees) == Some(725000)
  {
    PaulByrdEarnsMost();
    TopEarnerIsHighest(MockEmployees, PaulByrd);
  }

  /** The top ten of the fallback dataset has ten entries, led by Paul Byrd
      with salary 725000. */
  lemma FallbackTopTen()
    ensures |TopTenBySalary(MockEmployees)| == 10
    ensures TopTenBySalary(MockEmployees)[0] == PaulByrd
    ensures TopTenBySalary(MockEmployees)[0].salary == 725000
  {
    FallbackListing();
    PaulByrdEarnsMost();
    UniqueTopEarnerLeads(MockEmployees, PaulByrd);
  }

  /** The names of the sixteen records before Paul Byrd's, copied out of
      `MockEmployees` as a solver aid: letter facts about them are proved on
      this short sequence of strings, and `NamesBeforePaulAreFirst` ties it
      back to the dataset. */
  const NamesBeforePaul: seq<string> := [
      "Tiger Nixon",
      "Garrett Winters",
      "Ashton Cox",
      "Cedric Kelly",
      "Airi Satou",
      "Brielle Williamson",
      "Herrod Chandler",
      "Rhona Davidson",
      "Colleen Hurst",
      "Sonya Frost",
      "Jena Gaines",
      "Quinn Flynn",
      "Charde Marshall",
      "Haley Kennedy",
      "Tatyana Fitzpatrick",
      "Michael Silva"
    ]

  /** The copy agrees with the dataset. */
  lemma NamesBeforePaulAreFirst()
    ensures forall j :: 0 <= j < 16 ==> MockEmployees[j].name == NamesBeforePaul[j]
  {
  }

  lemma NoPEarly()
    ensures forall j :: 0 <= j < 7 ==> 'p' !in NamesBeforePaul[j] && 'P' !in NamesBeforePaul[j]
  {
  }

  lemma NoPLater()
    ensures forall j :: 7 <= j < 14 ==> 'p' !in NamesBeforePaul[j] && 'P' !in NamesBeforePaul[j]
  {
  }

  /** Tatyana Fitzpatrick has a 'p' but no 'u'; Michael Silva has no 'p'. */
  lemma NoPOrNoU()
    ensures 'u' !in NamesBeforePaul[14] && 'U' !in NamesBeforePaul[14]
    ensures 'p' !in NamesBeforePaul[15] && 'P' !in NamesBeforePaul[15]
  {
  }

  /** No name before Paul Byrd's matches "Paul": each lacks its 'p' or its
      'u' in both cases.
      (The literal arrives as a parameter fixed by `requires`, so the
      verifier does not evaluate the search and lookup functions on it eagerly.) */
  lemma NoneBeforePaulMatches(s: string)
    requires s == "Paul"
    ensures forall j :: 0 <= j < 16 ==> !MatchesSearch(MockEmployees[j].name, s)
  {
    NamesBeforePaulAreFirst();
    NoPEarly();
    NoPLater();
    NoPOrNoU();
    forall j | 0 <= j < 16
      ensures !MatchesSearch(NamesBeforePaul[j], s)
    {
      MissingLetterNoMatch(NamesBeforePaul[j], s, if j == 14 then 2 else 0);
    }
  }

  /** Searching the fallback dataset for "Paul" finds Paul Byrd, age 64,
      first.
      (The literal arrives as a parameter fixed by `requires`, so the
      verifier does not evaluate the search and lookup functions on it eagerly.) */
  lemma FallbackSearchPaul(s: string)
    requires s == "Paul"
    ensures SearchByName(MockEmployees, s) != []
    ensures SearchByName(MockEmployees, s)[0] == PaulByrd
    ensures SearchByName(MockEmployees, s)[0].age == 64
  {
    NoneBeforePaulMatches(s);
    FallbackListing();
    assert MockEmployees[16] == PaulByrd;
    PaulMatches(PaulByrd.name, s);
    PaulIsPlain(s);
    FirstMatchLeads(MockEmployees, s, 16);
  }

  /** "Paul" holds no regular-expression metacharacter.
      (The literal arrives as a parameter fixed by `requires`, so the
      verifier does not evaluate the search and lookup functions on it eagerly.) */
  lemma PaulIsPlain(s: string)
    requires s == "Paul"
    ensures NoRegexMeta(s)
  {
    forall i | 0 <= i < |s|
      ensures !IsRegexMeta(s[i])
    {
      assert s[i] in "Paul";
    }
  }

  /** "Paul Byrd" matches "Paul": the search string is its prefix and the
      rest is one line.
      (The literal arrives as a parameter fixed by `requires`, so the
      verifier does not evaluate the search and lookup functions on it eagerly.) */
  lemma PaulMatches(name: string, s: string)
    requires name == "Paul Byrd" && s == "Paul"
    ensures MatchesSearch(name, s)
  {
    assert name[..4] == s && name[4..] == " Byrd";
    NoLineTerminatorByChars(name[4..]);
  }
}

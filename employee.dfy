/** The employee record and the two salary comparators, the only ordering the
    service uses. */
module Employees {

  /** One employee as the upstream API and the fallback dataset describe it
      (JSON keys id, employee_name, employee_salary, employee_age, profile_image).
      Nothing in the service changes a record after it is built. */
  datatype Employee = Employee(id: int, name: string, salary: int, age: int, profileImage: string)

  /** `Integer.compare`: -1, 0 or 1 as x is below, equal to or above y. */
  function Compare(x: int, y: int): (r: int)
    ensures r == -1 || r == 0 || r == 1
    ensures r < 0 <==> x < y
    ensures r == 0 <==> x == y
  {
    if x < y then -1 else if x == y then 0 else 1
  }

  /** `employeeSalaryDescendingComparator`: the better paid employee comes first. */
  function DescendingCompare(e1: Employee, e2: Employee): (r: int)
    ensures r < 0 <==> e1.salary > e2.salary
    ensures r == 0 <==> e1.salary == e2.salary
    ensures r > 0 <==> e1.salary < e2.salary
  {
    Compare(e2.salary, e1.salary)
  }

  /** `employeeSalaryAcsendingComparator` (`Comparator.comparingInt` on the salary). */
  function AscendingCompare(e1: Employee, e2: Employee): (r: int)
    ensures r < 0 <==> e1.salary < e2.salary
    ensures r == 0 <==> e1.salary == e2.salary
    ensures r > 0 <==> e1.salary > e2.salary
  {
    Compare(e1.salary, e2.salary)
  }

  function Sign(x: int): int {
    if x < 0 then -1 else if x == 0 then 0 else 1
  }

  /** The general contract of `java.util.Comparator`: antisymmetric in sign,
      transitive, and elements comparing equal compare alike with everything. */
  ghost predicate IsComparator(cmp: (Employee, Employee) -> int) {
    && (forall x, y :: Sign(cmp(x, y)) == -Sign(cmp(y, x)))
    && (forall x, y, z :: cmp(x, y) > 0 && cmp(y, z) > 0 ==> cmp(x, z) > 0)
    && (forall x, y, z :: cmp(x, y) == 0 ==> Sign(cmp(x, z)) == Sign(cmp(y, z)))
  }

  /** The two comparators are mirror images of each other. */
  lemma ComparatorsAreReverses(a: Employee, b: Employee)
    ensures Sign(DescendingCompare(a, b)) == Sign(AscendingCompare(b, a))
    ensures Sign(DescendingCompare(a, b)) == -Sign(AscendingCompare(a, b))
  {
  }

  /** Both comparators meet the Comparator contract, i.e. each is a total
      preorder on salary; the other fields never influence them. */
  lemma ComparatorsAreValid()
    ensures IsComparator(DescendingCompare)
    ensures IsComparator(AscendingCompare)
    ensures forall a: Employee, b: Employee, a': Employee, b': Employee :: a.salary == a'.salary && b.salary == b'.salary ==>
              DescendingCompare(a, b) == DescendingCompare(a', b') && AscendingCompare(a, b) == AscendingCompare(a', b')
  {
  }
}

/** client/src/components/Page/Employees-List.jsx: the list state of the
    employee directory page (`employees`, `currentPage`, `totalEmployees`),
    the page arithmetic and the updates made by fetching and deleting. */
module EmployeesList {
  import opened Js

  const EmployeesPerPage := 10

  /** An employee object as received from the list endpoint: its `_id`, its
      `f_Image` (base64 text or `null`) and its other fields. */
  datatype ApiEmployee = ApiEmployee(id: string, fImage: Text, fields: map<string, string>)

  /** A list entry: the received object spread into a new one, plus `image`. */
  datatype ListEntry = ListEntry(employee: ApiEmployee, image: Text)

  const DataUrlPrefix := "data:image/jpeg;base64,"

  /** The mapping applied to each received employee after a fetch. */
  function ToEntry(e: ApiEmployee): (r: ListEntry)
    ensures r.employee == e
    ensures r.image.Some? <==> Truthy(e.fImage)
    ensures r.image.Some? ==> r.image.value == DataUrlPrefix + e.fImage.value
  {
    ListEntry(e, if Truthy(e.fImage) then Some(DataUrlPrefix + e.fImage.value) else None)
  }

  function ToEntries(data: seq<ApiEmployee>): (r: seq<ListEntry>)
    ensures |r| == |data|
    ensures forall i :: 0 <= i < |data| ==> r[i].employee == data[i]
    ensures forall i :: 0 <= i < |data| ==> (r[i].image.Some? <==> Truthy(data[i].fImage))
    ensures forall i :: 0 <= i < |data| && Truthy(data[i].fImage) ==>
              r[i].image == Some(DataUrlPrefix + data[i].fImage.value)
  {
    seq(|data|, i requires 0 <= i < |data| => ToEntry(data[i]))
  }

  /** `list.filter((emp) => emp._id !== id)`. */
  function WithoutId(list: seq<ListEntry>, id: string): (r: seq<ListEntry>)
    ensures |r| <= |list|
    ensures forall e :: e in r <==> e in list && e.employee.id != id
  {
    if list == [] then []
    else if list[0].employee.id == id then WithoutId(list[1..], id)
    else [list[0]] + WithoutId(list[1..], id)
  }

  /** Filtering keeps the survivors in their order: it distributes over
      concatenation. */
  lemma {:induction false} WithoutIdKeepsOrder(a: seq<ListEntry>, b: seq<ListEntry>, id: string)
    ensures WithoutId(a + b, id) == WithoutId(a, id) + WithoutId(b, id)
  {
    if a != [] {
      assert (a + b)[1..] == a[1..] + b;
      WithoutIdKeepsOrder(a[1..], b, id);
    } else {
      assert a + b == b;
    }
  }

  /** Deleting an identifier no entry has leaves the list as it is. */
  lemma {:induction false} WithoutAbsentId(list: seq<ListEntry>, id: string)
    requires forall i :: 0 <= i < |list| ==> list[i].employee.id != id
    ensures WithoutId(list, id) == list
  {
    if list != [] {
      WithoutAbsentId(list[1..], id);
    }
  }

  /** Clamping of a `slice` index: a negative index counts from the end. */
  function SliceIndex(i: int, n: nat): (r: nat)
    ensures r <= n
    ensures 0 <= i ==> r == Min(i, n)
    ensures i < 0 && -i <= n ==> r + -i == n
    ensures i < 0 && -i > n ==> r == 0
  {
    if i < 0 then (if n + i < 0 then 0 else n + i)
    else if i < n then i else n
  }

  /** `Array.prototype.slice(start, end)`. */
  function Slice<T>(s: seq<T>, start: int, end: int): (r: seq<T>)
    ensures |r| <= |s|
    ensures |r| == if SliceIndex(start, |s|) < SliceIndex(end, |s|)
                   then SliceIndex(end, |s|) - SliceIndex(start, |s|) else 0
    ensures forall j :: 0 <= j < |r| ==> SliceIndex(start, |s|) + j < |s| && r[j] == s[SliceIndex(start, |s|) + j]
  {
    var a := SliceIndex(start, |s|);
    var b := SliceIndex(end, |s|);
    if a < b then s[a..b] else []
  }

  function Min(a: int, b: int): int
  {
    if a < b then a else b
  }

  /** `currentEmployees`: the entries `(p - 1) * 10 .. p * 10` of the list,
      clamped to its length. */
  function PageOf<T>(list: seq<T>, page: int): (r: seq<T>)
    ensures page >= 1 ==>
              r == list[Min((page - 1) * EmployeesPerPage, |list|)..Min(page * EmployeesPerPage, |list|)]
  {
    var last := page * EmployeesPerPage;
    var first := last - EmployeesPerPage;
    Slice(list, first, last)
  }

  /** Whatever the page number, a page holds at most 10 entries. */
  lemma PageAtMostTen<T>(list: seq<T>, page: int)
    ensures |PageOf(list, page)| <= EmployeesPerPage
  {
  }

  /** `Math.ceil(totalEmployees / 10)`. */
  function TotalPages(total: nat): (r: nat)
    ensures r * EmployeesPerPage >= total
    ensures r > 0 ==> (r - 1) * EmployeesPerPage < total
    ensures r == 0 <==> total == 0
  {
    (total + EmployeesPerPage - 1) / EmployeesPerPage
  }

  predicate PrevDisabled(currentPage: int)
  {
    currentPage == 1
  }

  predicate NextDisabled(currentPage: int, totalPages: int)
  {
    currentPage == totalPages
  }

  /** With no employees there are 0 pages, so the next button is never
      disabled on any page the list can show. */
  lemma NextEnabledWithoutEmployees(currentPage: int)
    requires currentPage >= 1
    ensures !NextDisabled(currentPage, TotalPages(0))
    ensures PageOf<ListEntry>([], currentPage) == []
  {
  }

  /** With the count matching the list, every page from 1 to totalPages shows
      at least one entry, and an enabled button leads to another such page. */
  lemma ButtonsStayOnPages<T>(list: seq<T>, page: int)
    requires 1 <= page <= TotalPages(|list|)
    ensures PageOf(list, page) != []
    ensures !PrevDisabled(page) ==> 1 <= page - 1 && PageOf(list, page - 1) != []
    ensures !NextDisabled(page, TotalPages(|list|)) ==>
              page + 1 <= TotalPages(|list|) && PageOf(list, page + 1) != []
  {
  }

  /** Pages 1 to k, one after the other. */
  function Pages<T>(list: seq<T>, k: nat): seq<T>
  {
    if k == 0 then [] else Pages(list, k - 1) + PageOf(list, k)
  }

  lemma {:induction false} PagesArePrefix<T>(list: seq<T>, k: nat)
    ensures Pages(list, k) == list[..Min(k * EmployeesPerPage, |list|)]
  {
    if k > 0 {
      PagesArePrefix(list, k - 1);
      var a := Min((k - 1) * EmployeesPerPage, |list|);
      var b := Min(k * EmployeesPerPage, |list|);
      assert list[..a] + list[a..b] == list[..b];
    }
  }

  /** When the count matches the list, pages 1 to totalPages put together are
      the whole list. */
  lemma {:induction false} PagesCoverList<T>(list: seq<T>)
    ensures Pages(list, TotalPages(|list|)) == list
  {
    PagesArePrefix(list, TotalPages(|list|));
    assert list[..|list|] == list;
  }

  /** The count is not updated on delete: with 11 employees fetched and one
      deleted, the page count stays 2 while page 2 is empty. */
  lemma StaleCountAfterDelete(list: seq<ListEntry>, id: string)
    requires |list| == 11 && |WithoutId(list, id)| == 10
    ensures TotalPages(|list|) == 2
    ensures PageOf(WithoutId(list, id), 2) == []
    ensures !NextDisabled(1, TotalPages(|list|))
  {
  }

  /** The component's state. */
  class EmployeeListState {
    var employees: seq<ListEntry>
    var currentPage: int
    var totalEmployees: nat

    /** The buttons never take the page below 1. */
    ghost predicate Valid()
      reads this
    {
      currentPage >= 1
    }

    /** `useState([])`, `useState(1)`, `useState(0)`. */
    constructor ()
      ensures Valid()
      ensures employees == [] && currentPage == 1 && totalEmployees == 0
    {
      employees := [];
      currentPage := 1;
      totalEmployees := 0;
    }

    /** The entries on the current page. */
    function CurrentEmployees(): (r: seq<ListEntry>)
      reads this
      ensures |r| <= EmployeesPerPage
      ensures forall e :: e in r ==> e in employees
    {
      PageAtMostTen(employees, currentPage);
      PageOf(employees, currentPage)
    }

    /** The outcome of fetchEmployees: `None` when the request failed, which
        leaves the state as it was (the redirect on 401 is navigation). */
    method Fetched(response: Option<seq<ApiEmployee>>)
      requires Valid()
      modifies this
      ensures Valid()
      ensures response.None? ==>
                employees == old(employees) && totalEmployees == old(totalEmployees)
      ensures response.Some? ==>
                employees == ToEntries(response.value) && totalEmployees == |response.value|
      ensures currentPage == old(currentPage)
    {
      if response.Some? {
        employees := ToEntries(response.value);
        totalEmployees := |response.value|;
      }
    }

    /** handleDelete: without a stored token nothing happens; after a
        successful request every entry with that `_id` is dropped; after a
        failed one the list stays. `totalEmployees` is never touched. */
    method HandleDelete(id: string, token: Text, deleted: bool)
      requires Valid()
      modifies this
      ensures Valid()
      ensures Truthy(token) && deleted ==> employees == WithoutId(old(employees), id)
      ensures !(Truthy(token) && deleted) ==> employees == old(employees)
      ensures totalEmployees == old(totalEmployees) && currentPage == old(currentPage)
    {
      if !Truthy(token) {
        return;
      }
      if deleted {
        employees := WithoutId(employees, id);
      }
    }

    /** The previous-page button: `paginate(currentPage - 1)` unless disabled. */
    method ClickPrev()
      requires Valid()
      modifies this
      ensures Valid()
      ensures currentPage == if PrevDisabled(old(currentPage)) then old(currentPage) else old(currentPage) - 1
      ensures employees == old(employees) && totalEmployees == old(totalEmployees)
    {
      if !PrevDisabled(currentPage) {
        currentPage := currentPage - 1;
      }
    }

    /** The next-page button: `paginate(currentPage + 1)` unless disabled. */
    method ClickNext()
      requires Valid()
      modifies this
      ensures Valid()
      ensures currentPage == if NextDisabled(old(currentPage), TotalPages(totalEmployees))
                             then old(currentPage) else old(currentPage) + 1
      ensures totalEmployees == 0 ==> currentPage == old(currentPage) + 1
      ensures employees == old(employees) && totalEmployees == old(totalEmployees)
    {
      if !NextDisabled(currentPage, TotalPages(totalEmployees)) {
        currentPage := currentPage + 1;
      }
    }
  }
}

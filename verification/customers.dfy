/**
 * Customer records: the shared form validation, the hook's `addCustomer`
 * (`useCustomers`), and the customers page (`Customers.jsx`) with its save
 * handler and client-side pagination.
 */
module Customers {
  import opened Http
  import opened Text

  datatype Customer = Customer(id: string, name: string, address: string, mobileNumber: string)

  /** What the user typed into the add-customer form. */
  datatype CustomerForm = CustomerForm(name: string, address: string, mobileNumber: string)

  datatype Validation = Valid | MissingFields | BadMobileNumber

  /** The two checks both save paths run, in order: required fields, then the
      ten-digit pattern. */
  function ValidateCustomer(f: CustomerForm): (v: Validation)
    ensures v == MissingFields <==> IsBlank(f.name) || IsBlank(f.address) || f.mobileNumber == ""
    ensures v == BadMobileNumber <==>
      !IsBlank(f.name) && !IsBlank(f.address) && f.mobileNumber != "" && !IsTenDigits(f.mobileNumber)
    ensures v == Valid <==> !IsBlank(f.name) && !IsBlank(f.address) && IsTenDigits(f.mobileNumber)
  {
    if IsBlank(f.name) || IsBlank(f.address) || f.mobileNumber == "" then MissingFields
    else if !IsTenDigits(f.mobileNumber) then BadMobileNumber
    else Valid
  }

  /** The required-fields check wins over the digit check. */
  lemma RequiredFieldsFirst()
    ensures ValidateCustomer(CustomerForm("  ", "Main Road", "98765")) == MissingFields
  {
    assert IsJsWhitespace("  "[0]) && IsJsWhitespace("  "[1]);
  }

  /** With the text fields filled, the digit check rejects the usual malformed
      numbers and accepts ten digits. */
  lemma MobileNumberExamples()
    ensures ValidateCustomer(CustomerForm("Asha", "Main Road", "98765")) == BadMobileNumber
    ensures ValidateCustomer(CustomerForm("Asha", "Main Road", "98765432100")) == BadMobileNumber
    ensures ValidateCustomer(CustomerForm("Asha", "Main Road", "98765abcde")) == BadMobileNumber
    ensures ValidateCustomer(CustomerForm("Asha", "Main Road", "9876543210")) == Valid
  {
    assert !IsJsWhitespace("Asha"[0]);
    assert !IsJsWhitespace("Main Road"[0]);
    Text.MobilePatternExamples();
  }

  /** What `addCustomer` returns and leaves behind; `requested` records whether the
      create call was made. */
  datatype AddResult = AddResult(customers: seq<Customer>, ok: bool, requested: bool)

  /** `useCustomers.addCustomer(form)` given the outcome of the create call; its
      body is the `newCustomer` the server returns. */
  function AddCustomer(list: seq<Customer>, f: CustomerForm, outcome: HttpOutcome<Customer>): (r: AddResult)
    ensures ValidateCustomer(f) != Valid ==> r == AddResult(list, false, false)
    ensures ValidateCustomer(f) == Valid ==> r.requested && (r.ok <==> outcome.Resolved())
    ensures r.ok ==> r.customers == list + [outcome.body]
    ensures !r.ok ==> r.customers == list
  {
    if ValidateCustomer(f) != Valid then AddResult(list, false, false)
    else
      match outcome
      case Reply(_, created) => AddResult(list + [created], true, true)
      case HttpError(_, _) => AddResult(list, false, true)
      case NoResponse => AddResult(list, false, true)
  }

  /** The state of the customers page that saving and paging touch. */
  datatype CustomersPage = CustomersPage(customers: seq<Customer>, form: CustomerForm,
                                         modalOpen: bool, currentPage: int)

  /** `handleSave()` given the outcome of the create call. A rejected form keeps the
      modal open; once the request is made the modal closes whatever the outcome. */
  function HandleSave(page: CustomersPage, outcome: HttpOutcome<Customer>): (r: (CustomersPage, bool))
    ensures ValidateCustomer(page.form) != Valid ==> r == (page, false)
    ensures ValidateCustomer(page.form) == Valid ==> r.1 && !r.0.modalOpen
    ensures ValidateCustomer(page.form) == Valid && outcome.ResolvedWith(201) ==>
      r.0.customers == page.customers + [outcome.body]
    ensures !(ValidateCustomer(page.form) == Valid && outcome.ResolvedWith(201)) ==>
      r.0.customers == page.customers
    ensures r.0.form == page.form && r.0.currentPage == page.currentPage
  {
    if ValidateCustomer(page.form) != Valid then (page, false)
    else
      var customers :=
        if outcome.ResolvedWith(201) then page.customers + [outcome.body] else page.customers;
      (page.(customers := customers, modalOpen := false), true)
  }

  const CustomersPerPage: int := 10

  /** JavaScript's `Array.prototype.slice(begin, end)`: negative bounds count from
      the end, and both bounds are clamped to the array. */
  function JsSlice<T>(s: seq<T>, begin: int, end: int): (r: seq<T>)
    ensures |r| <= |s|
  {
    var n := |s|;
    var from := if begin < 0 then (if n + begin < 0 then 0 else n + begin) else (if begin > n then n else begin);
    var to := if end < 0 then (if n + end < 0 then 0 else n + end) else (if end > n then n else end);
    if from >= to then [] else s[from..to]
  }

  /** The customers shown on page `p`: `customers.slice(p*10 - 10, p*10)`. */
  function CurrentCustomers(list: seq<Customer>, p: int): (r: seq<Customer>)
    ensures |r| <= CustomersPerPage
    ensures p >= 1 ==> r == list[Min((p - 1) * CustomersPerPage, |list|)..Min(p * CustomersPerPage, |list|)]
  {
    JsSlice(list, p * CustomersPerPage - CustomersPerPage, p * CustomersPerPage)
  }

  function Min(a: int, b: int): int {
    if a <= b then a else b
  }

  /** `Math.ceil(n / 10)`: the fewest pages that hold n customers. */
  function PageCount(n: nat): (k: nat)
    ensures k * CustomersPerPage >= n
    ensures k > 0 ==> (k - 1) * CustomersPerPage < n
  {
    (n + CustomersPerPage - 1) / CustomersPerPage
  }

  /** Pages 1..k, concatenated. */
  function FirstPages(list: seq<Customer>, k: nat): seq<Customer>
  {
    if k == 0 then [] else FirstPages(list, k - 1) + CurrentCustomers(list, k)
  }

  /** The first k pages are the first min(10k, n) customers. */
  lemma {:induction false} FirstPagesArePrefix(list: seq<Customer>, k: nat)
    ensures FirstPages(list, k) == list[..Min(k * CustomersPerPage, |list|)]
  {
    if k > 0 {
      FirstPagesArePrefix(list, k - 1);
      var a := Min((k - 1) * CustomersPerPage, |list|);
      var b := Min(k * CustomersPerPage, |list|);
      assert list[..b] == list[..a] + list[a..b];
    }
  }

  /** Paging loses nothing and repeats nothing: pages 1..PageCount(n) together
      are the whole list, and every later page is empty. */
  lemma PagesCoverList(list: seq<Customer>)
    ensures FirstPages(list, PageCount(|list|)) == list
    ensures forall p :: p > PageCount(|list|) ==> CurrentCustomers(list, p) == []
  {
    FirstPagesArePrefix(list, PageCount(|list|));
    assert list[..|list|] == list;
  }

  /** Appending a customer leaves every full page before it unchanged. */
  lemma AppendKeepsFullPages(list: seq<Customer>, c: Customer, p: int)
    requires 1 <= p && p * CustomersPerPage <= |list|
    ensures CurrentCustomers(list + [c], p) == CurrentCustomers(list, p)
  {
    var a, b := (p - 1) * CustomersPerPage, p * CustomersPerPage;
    assert (list + [c])[a..b] == list[a..b];
  }
}

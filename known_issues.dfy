/** The registry of known issues and its three filters. Dates are instants in
    seconds on one clock: the reported date is the start of its day, and "now" is
    given by the caller instead of being read from the system clock. */
module KnownIssues {
  import opened Dicts
  import opened Wrappers
  import ProductMessages
  import Strings

  const SecondsPerDay: int := 86400
  const DefaultStaleDays: int := 30

  /** One entry of the registry; severity is one of critical, high, medium, low and
      status one of open, in_progress, fixed, wont_fix. */
  datatype Issue = Issue(
    url: string,
    testCase: string,
    expectedIncorrectValue: string,
    expectedCorrectValue: string,
    name: string,
    description: string,
    severity: string,
    reportedDate: int,
    expectedFixDate: string,
    status: string,
    reason: string,
    decisionBy: string,
    decisionDate: string,
    affectedUsers: string,
    workaround: string)

  type Registry = Dict<Issue>

  const IncorrectProductNameBug: Issue := Issue(
    "http://selenium1py.pythonanywhere.com/catalogue/coders-at-work_207/?promo=offer7",
    "test_guest_can_add_product_to_basket",
    "Coders at Work book",
    "Coders at Work",
    "incorrect_product_name_bug",
    "After clicking 'add to basket', product name in basket is 'Coders at Work book' but expected to be 'Coders at Work'",
    "low",
    1755388800, // 2025-08-17 00:00
    "2025-09-09",
    "open",
    "Product team decided this is expected behavior",
    "product_manager@company.com",
    "2025-08-19",
    "All users seeing English version",
    "Ignore the extra 'book' in product name")

  /** `KnownIssues.ISSUES` as shipped. */
  const Issues: Registry := [("incorrect_product_name_bug", IncorrectProductNameBug)]

  /** The shipped registry holds one low-severity open issue, stored under its own
      name, reported on the day that starts at 1755388800 (2025-08-17). */
  lemma ShippedIssueRecord()
    ensures Keys(Issues) == ["incorrect_product_name_bug"]
    ensures Get(Issues, "incorrect_product_name_bug") == Some(IncorrectProductNameBug)
    ensures IncorrectProductNameBug.name == "incorrect_product_name_bug"
    ensures IncorrectProductNameBug.severity == "low" && IncorrectProductNameBug.status == "open"
    ensures IncorrectProductNameBug.reportedDate == 20317 * SecondsPerDay
  {
    assert Keys(Issues) == [Issues[0].0];
  }

  /** The three selection rules. */
  datatype Criterion = Urgent | Active | Stale(now: int, days: int)

  predicate Meets(c: Criterion, issue: Issue)
    ensures c.Stale? && Meets(c, issue) ==> issue.status in ["open", "in_progress"]
  {
    match c
    case Urgent => issue.severity in ["critical", "high"]
    case Active => issue.status in ["open", "in_progress"]
    case Stale(now, days) => issue.status == "open" && issue.reportedDate < now - days * SecondsPerDay
  }

  /** The items that meet `c`, in registry order. */
  function Where(issues: Registry, c: Criterion): (selected: Registry)
    ensures |selected| <= |issues|
    ensures forall e :: e in selected ==> e in issues && Meets(c, e.1)
  {
    if issues == [] then []
    else
      var last := issues[|issues| - 1];
      Where(issues[..|issues| - 1], c) + (if Meets(c, last.1) then [last] else [])
  }

  /** An item is selected exactly when it is in the registry and meets `c`. */
  lemma {:induction false} WhereMembers(issues: Registry, c: Criterion)
    ensures forall e :: e in Where(issues, c) <==> e in issues && Meets(c, e.1)
  {
    if issues != [] {
      var init := issues[..|issues| - 1];
      WhereMembers(init, c);
      assert issues == init + [issues[|issues| - 1]];
    }
  }

  /** The selection keeps registry order. */
  lemma {:induction false} WhereSubsequence(issues: Registry, c: Criterion)
    ensures IsSubsequence(Where(issues, c), issues)
  {
    if issues != [] {
      var init := issues[..|issues| - 1];
      var last := issues[|issues| - 1];
      WhereSubsequence(init, c);
      var w := Where(init, c);
      if Meets(c, last.1) {
        assert (w + [last])[..|w|] == w;
      } else {
        assert Where(issues, c) == w;
      }
    }
  }

  /** No key of the selection is new. */
  lemma WhereKeys(issues: Registry, c: Criterion, k: string)
    requires k in Keys(Where(issues, c))
    ensures k in Keys(issues)
  {
    var w := Where(issues, c);
    var i :| 0 <= i < |w| && Keys(w)[i] == k;
    WhereMembers(issues, c);
    assert w[i] in issues;
    var j :| 0 <= j < |issues| && issues[j] == w[i];
    assert Keys(issues)[j] == k;
  }

  /** `get_urgent_issues`: the items of severity critical or high, values unchanged,
      in registry order. */
  function GetUrgentIssues(issues: Registry): (urgent: Registry)
    ensures forall e :: e in urgent <==> e in issues && e.1.severity in ["critical", "high"]
    ensures IsSubsequence(urgent, issues)
  {
    WhereMembers(issues, Urgent);
    WhereSubsequence(issues, Urgent);
    Where(issues, Urgent)
  }

  /** `get_active_issues`: the keys of the items whose status is open or in_progress,
      in registry order. */
  function GetActiveIssues(issues: Registry): (keys: seq<string>)
    ensures forall e :: e in issues && Meets(Active, e.1) ==> e.0 in keys
    ensures forall k :: k in keys ==> exists e :: e in issues && e.0 == k && Meets(Active, e.1)
    ensures IsSubsequence(keys, Keys(issues))
  {
    var w := Where(issues, Active);
    WhereMembers(issues, Active);
    WhereSubsequence(issues, Active);
    SubsequenceKeys(w, issues);
    assert forall e :: e in w ==> e.0 in Keys(w) by {
      forall e | e in w ensures e.0 in Keys(w) {
        var i :| 0 <= i < |w| && w[i] == e;
        assert Keys(w)[i] == e.0;
      }
    }
    assert forall k :: k in Keys(w) ==> exists e :: e in w && e.0 == k by {
      forall k | k in Keys(w) ensures exists e :: e in w && e.0 == k {
        var i :| 0 <= i < |w| && Keys(w)[i] == k;
        assert w[i] in w;
      }
    }
    Keys(w)
  }

  /** In a registry with distinct keys, an issue that is fixed or will not be fixed
      is never listed as active. */
  lemma ClosedIssuesNeverActive(issues: Registry, i: nat)
    requires DistinctKeys(issues) && i < |issues|
    requires issues[i].1.status in ["fixed", "wont_fix"]
    ensures issues[i].0 !in GetActiveIssues(issues)
  {
    var keys := GetActiveIssues(issues);
    if issues[i].0 in keys {
      assert false;
    }
  }

  /** The issues that are stale at `now`: open and reported strictly before
      `now - days`. */
  function StaleIssues(issues: Registry, now: int, days: int): (stale: Registry)
    ensures forall e :: e in stale <==>
              e in issues && e.1.status == "open" && e.1.reportedDate < now - days * SecondsPerDay
    ensures IsSubsequence(stale, issues)
  {
    WhereMembers(issues, Stale(now, days));
    WhereSubsequence(issues, Stale(now, days));
    Where(issues, Stale(now, days))
  }

  /** `get_stale_issues`: walks the registry and puts every stale item into a new dict. */
  method GetStaleIssues(issues: Registry, now: int, days: int := DefaultStaleDays)
    returns (staleIssues: Registry)
    requires DistinctKeys(issues)
    ensures staleIssues == StaleIssues(issues, now, days)
  {
    var staleDate := now - days * SecondsPerDay;
    staleIssues := [];
    for i := 0 to |issues|
      invariant staleIssues == Where(issues[..i], Stale(now, days))
    {
      var (issueName, issueData) := issues[i];
      assert issues[..i + 1][..i] == issues[..i];
      if issueData.status == "open" {
        if issueData.reportedDate < staleDate {
          if issueName in Keys(staleIssues) {
            WhereKeys(issues[..i], Stale(now, days), issueName);
            assert false;
          }
          PutFresh(staleIssues, issueName, issueData);
          staleIssues := Put(staleIssues, issueName, issueData);
        }
      }
    }
    assert issues[..|issues|] == issues;
  }

  /** As shipped: the only issue is active, none is urgent, and it is stale exactly
      once more than 30 days have passed since it was reported. */
  lemma ShippedRegistry(now: int)
    ensures GetActiveIssues(Issues) == ["incorrect_product_name_bug"]
    ensures GetUrgentIssues(Issues) == []
    ensures StaleIssues(Issues, now, DefaultStaleDays) ==
            if IncorrectProductNameBug.reportedDate < now - DefaultStaleDays * SecondsPerDay then Issues else []
  {
    var item := Issues[0];
    assert Issues[..0] == [];
    assert Where(Issues, Active) == [item];
    assert Keys([item]) == ["incorrect_product_name_bug"];
    assert Where(Issues, Urgent) == [];
    if IncorrectProductNameBug.reportedDate < now - DefaultStaleDays * SecondsPerDay {
      assert Where(Issues, Stale(now, DefaultStaleDays)) == [item];
    } else {
      assert Where(Issues, Stale(now, DefaultStaleDays)) == [];
    }
  }

  /** The registered product-name bug is what the exact name check reports: with the
      correct name stored and the incorrect one shown, the check fails on it. */
  lemma RegisteredBugIsCaught()
    ensures ProductMessages.ValueInMessageBoxCheck(
              map["name" := IncorrectProductNameBug.expectedCorrectValue], "name",
              [IncorrectProductNameBug.expectedIncorrectValue]) ==
            ProductMessages.Failed(ProductMessages.Mismatch("Coders at Work", "Coders at Work book"))
  {
    assert Strings.IsPrefix("Coders at Work", "Coders at Work book");
    ProductMessages.DecoyBeforeExactFails(
      map["name" := "Coders at Work"], "name", ["Coders at Work book"], 0);
  }
}

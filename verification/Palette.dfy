/**
  The command-palette index: one worker per tenant appends its apps under a mutex in completion
  order, then everything is sorted (internal/api/palette.go).
 */
module Palette {
  import opened Text
  import opened Sorting

  datatype App = App(name: string, kind: string)

  datatype PaletteApp = PaletteApp(name: string, tenant: string, kind: string)

  /** What one tenant's list call came to; failed covers list errors and cancelled workers. */
  datatype Outcome = Failed | Listed(items: seq<App>, truncated: bool)

  datatype Job = Job(tenant: string, outcome: Outcome)

  function AppsOf(job: Job): seq<PaletteApp> {
    match job.outcome
    case Failed => []
    case Listed(items, _) => Map((a: App) => PaletteApp(a.name, job.tenant, a.kind), items)
  }

  function TruncatedOf(job: Job): seq<string> {
    if job.outcome.Listed? && job.outcome.truncated then [job.tenant] else []
  }

  class PaletteIndex {
    var apps: seq<PaletteApp>
    var truncatedTenants: seq<string>

    constructor ()
      ensures apps == [] && truncatedTenants == []
    {
      apps, truncatedTenants := [], [];
    }

    /** A worker's critical section. */
    method Fold(job: Job)
      modifies this
      ensures apps == old(apps) + AppsOf(job)
      ensures truncatedTenants == old(truncatedTenants) + TruncatedOf(job)
    {
      if job.outcome.Failed? {
        return;
      }
      if job.outcome.truncated {
        truncatedTenants := truncatedTenants + [job.tenant];
      }
      var items := job.outcome.items;
      for i := 0 to |items|
        invariant apps == old(apps) + AppsOf(job)[..i]
        invariant truncatedTenants == old(truncatedTenants) + TruncatedOf(job)
      {
        apps := apps + [PaletteApp(items[i].name, job.tenant, items[i].kind)];
        assert AppsOf(job)[..i + 1] == AppsOf(job)[..i] + [AppsOf(job)[i]];
      }
    }
  }

  /** Everything the workers append, in this completion order. */
  function Collect<T>(f: Job -> seq<T>, order: seq<Job>): seq<T> {
    if order == [] then [] else Collect(f, order[..|order| - 1]) + f(order[|order| - 1])
  }

  function AllApps(order: seq<Job>): seq<PaletteApp> { Collect(AppsOf, order) }

  function AllTruncated(order: seq<Job>): seq<string> { Collect(TruncatedOf, order) }

  /** The fan-out run in one completion order. */
  method FanoutAppLists(order: seq<Job>) returns (index: PaletteIndex)
    ensures index.apps == AllApps(order) && index.truncatedTenants == AllTruncated(order)
  {
    index := new PaletteIndex();
    for i := 0 to |order|
      invariant index.apps == AllApps(order[..i]) && index.truncatedTenants == AllTruncated(order[..i])
    {
      index.Fold(order[i]);
      assert order[..i + 1][..i] == order[..i];
    }
    assert order[..|order|] == order;
  }

  // ---- completion order does not matter ----------------------------------------------------

  lemma {:induction false} CollectConcat<T>(f: Job -> seq<T>, a: seq<Job>, b: seq<Job>)
    ensures Collect(f, a + b) == Collect(f, a) + Collect(f, b)
  {
    if b == [] {
      assert a + b == a;
    } else {
      var init, last := b[..|b| - 1], b[|b| - 1];
      CollectConcat(f, a, init);
      Regroup(a, b);
      CollectSnoc(f, a + init, last);
      Assoc(Collect(f, a), Collect(f, init), f(last));
    }
  }

  lemma CollectSnoc<T>(f: Job -> seq<T>, order: seq<Job>, job: Job)
    ensures Collect(f, order + [job]) == Collect(f, order) + f(job)
  {
    assert (order + [job])[..|order|] == order;
  }

  lemma CollectHead<T>(f: Job -> seq<T>, order: seq<Job>)
    requires order != []
    ensures multiset(Collect(f, order)) == multiset(Collect(f, order[1..])) + multiset(f(order[0]))
  {
    assert order == [order[0]] + order[1..];
    CollectConcat(f, [order[0]], order[1..]);
    CollectSnoc(f, [], order[0]);
    assert [] + [order[0]] == [order[0]];
  }

  lemma SplitOut(s: seq<Job>, j: nat)
    requires j < |s|
    ensures s == s[..j + 1] + s[j + 1..] && s[..j + 1][..j] == s[..j]
  {
  }

  lemma CollectWithout<T>(f: Job -> seq<T>, order: seq<Job>, j: nat)
    requires j < |order|
    ensures multiset(Collect(f, order)) == multiset(Collect(f, order[..j] + order[j + 1..])) + multiset(f(order[j]))
  {
    SplitOut(order, j);
    CollectConcat(f, order[..j + 1], order[j + 1..]);
    CollectConcat(f, order[..j], order[j + 1..]);
    assert Collect(f, order[..j + 1]) == Collect(f, order[..j]) + f(order[j]);
  }

  lemma {:induction false} SameCollection<T>(f: Job -> seq<T>, order: seq<Job>, order': seq<Job>)
    requires multiset(order) == multiset(order')
    ensures multiset(Collect(f, order)) == multiset(Collect(f, order'))
  {
    if order == [] {
      assert |multiset(order')| == 0;
    } else {
      var j := HeadElsewhere(order, order');
      SameCollection(f, order[1..], order'[..j] + order'[j + 1..]);
      CollectHead(f, order);
      CollectWithout(f, order', j);
    }
  }

  /** Every item of every successful tenant is in the index exactly once, in whatever order the workers finish. */
  lemma SameItems(order: seq<Job>, order': seq<Job>)
    requires multiset(order) == multiset(order')
    ensures multiset(AllApps(order)) == multiset(AllApps(order'))
    ensures multiset(AllTruncated(order)) == multiset(AllTruncated(order'))
  {
    SameCollection(AppsOf, order, order');
    SameCollection(TruncatedOf, order, order');
  }

  // ---- the sorted index ----------------------------------------------------------------------

  /** The comparison handed to sort.Slice. */
  predicate AppLess(a: PaletteApp, b: PaletteApp) {
    if a.tenant != b.tenant then StringLess(a.tenant, b.tenant) else StringLess(a.name, b.name)
  }

  predicate SameSlot(a: PaletteApp, b: PaletteApp) { a.tenant == b.tenant && a.name == b.name }

  lemma IncomparableIffSameSlot(a: PaletteApp, b: PaletteApp)
    ensures !AppLess(a, b) && !AppLess(b, a) <==> SameSlot(a, b)
  {
    StringLessTotal(a.tenant, b.tenant);
    StringLessTotal(a.name, b.name);
    StringLessTotal(a.tenant, a.tenant);
    StringLessTotal(a.name, a.name);
  }

  /** No two different apps of the index share tenant and name. */
  ghost predicate UniqueSlots(apps: seq<PaletteApp>) {
    forall x, y | x in apps && y in apps && SameSlot(x, y) :: x == y
  }

  /** A possible response of Index for these tenants' results. */
  ghost predicate PossibleIndex(jobs: seq<Job>, apps: seq<PaletteApp>, truncated: seq<string>) {
    exists order :: multiset(order) == multiset(jobs)
                    && IsSortOf(AppLess, apps, AllApps(order)) && IsSortOf(StringLess, truncated, AllTruncated(order))
  }

  lemma PossibleItems(jobs: seq<Job>, apps: seq<PaletteApp>, truncated: seq<string>)
    requires PossibleIndex(jobs, apps, truncated)
    ensures multiset(apps) == multiset(AllApps(jobs)) && multiset(truncated) == multiset(AllTruncated(jobs))
  {
    var order :| multiset(order) == multiset(jobs)
                 && IsSortOf(AppLess, apps, AllApps(order)) && IsSortOf(StringLess, truncated, AllTruncated(order));
    SameItems(order, jobs);
  }

  lemma TruncatedIsDetermined(a: seq<string>, b: seq<string>)
    requires IsSortOf(StringLess, a, b) && IsSortOf(StringLess, b, a)
    ensures a == b
  {
    forall x, y | x in a && y in a && !StringLess(x, y) && !StringLess(y, x) ensures x == y {
      StringLessTotal(x, y);
    }
    SortUnique(StringLess, a, b);
  }

  /** With unique (tenant, name) pairs, every completion order and every run of the sort give one response. */
  lemma IndexIsDetermined(
    jobs: seq<Job>, apps: seq<PaletteApp>, truncated: seq<string>, apps': seq<PaletteApp>, truncated': seq<string>)
    requires PossibleIndex(jobs, apps, truncated) && PossibleIndex(jobs, apps', truncated')
    ensures truncated == truncated'
    ensures UniqueSlots(AllApps(jobs)) ==> apps == apps'
  {
    PossibleItems(jobs, apps, truncated);
    PossibleItems(jobs, apps', truncated');
    TruncatedIsDetermined(truncated, truncated');
    if UniqueSlots(AllApps(jobs)) {
      PermutationMembers(apps, AllApps(jobs));
      forall x, y | x in apps && y in apps && !AppLess(x, y) && !AppLess(y, x) ensures x == y {
        IncomparableIffSameSlot(x, y);
      }
      SortUnique(AppLess, apps, apps');
    }
  }

  /** Without unique pairs the response is never determined: two apps sharing a slot can trade places. */
  lemma SharedSlotIsAmbiguous(jobs: seq<Job>, apps: seq<PaletteApp>, truncated: seq<string>)
    returns (apps': seq<PaletteApp>)
    requires PossibleIndex(jobs, apps, truncated) && !UniqueSlots(AllApps(jobs))
    ensures PossibleIndex(jobs, apps', truncated) && apps' != apps
  {
    PossibleItems(jobs, apps, truncated);
    PermutationMembers(apps, AllApps(jobs));
    var x, y :| x in AllApps(jobs) && y in AllApps(jobs) && SameSlot(x, y) && x != y;
    assert x in apps && y in apps;
    var i :| 0 <= i < |apps| && apps[i] == x;
    var j :| 0 <= j < |apps| && apps[j] == y;
    apps' := apps[i := y][j := x];
    SwapKeepsSort(apps, i, j);
    var order :| multiset(order) == multiset(jobs)
                 && IsSortOf(AppLess, apps, AllApps(order)) && IsSortOf(StringLess, truncated, AllTruncated(order));
    assert IsSortOf(AppLess, apps', AllApps(order));
  }

  lemma SwapKeepsSort(apps: seq<PaletteApp>, i: nat, j: nat)
    requires i < |apps| && j < |apps| && i != j && SameSlot(apps[i], apps[j])
    requires forall a, b | 0 <= a < b < |apps| :: !AppLess(apps[b], apps[a])
    ensures var apps' := apps[i := apps[j]][j := apps[i]];
            && multiset(apps') == multiset(apps)
            && forall a, b | 0 <= a < b < |apps'| :: !AppLess(apps'[b], apps'[a])
  {
    var apps' := apps[i := apps[j]][j := apps[i]];
    forall a | 0 <= a < |apps| ensures SameSlot(apps'[a], apps[a]) {}
    forall a, b | 0 <= a < b < |apps'| ensures !AppLess(apps'[b], apps'[a]) {
      assert AppLess(apps'[b], apps'[a]) == AppLess(apps[b], apps[a]);
    }
  }

  // ---- what the index holds, and in which order --------------------------------------------------

  /** A successful tenant's items, one by one, under that tenant. */
  lemma AppsAreListed(job: Job)
    ensures job.outcome.Failed? ==> AppsOf(job) == [] && TruncatedOf(job) == []
    ensures job.outcome.Listed? ==>
              && |AppsOf(job)| == |job.outcome.items|
              && (forall i | 0 <= i < |job.outcome.items| ::
                    AppsOf(job)[i] == PaletteApp(job.outcome.items[i].name, job.tenant, job.outcome.items[i].kind))
              && TruncatedOf(job) == if job.outcome.truncated then [job.tenant] else []
  {
  }

  /** Some successful tenant listed this app. */
  ghost predicate ListedBy(x: PaletteApp, job: Job) {
    job.outcome.Listed? && x.tenant == job.tenant && App(x.name, x.kind) in job.outcome.items
  }

  lemma ListedByIff(x: PaletteApp, job: Job)
    ensures x in AppsOf(job) <==> ListedBy(x, job)
  {
    AppsAreListed(job);
    if x in AppsOf(job) {
      var i :| 0 <= i < |AppsOf(job)| && AppsOf(job)[i] == x;
      assert job.outcome.items[i] == App(x.name, x.kind);
    }
    if ListedBy(x, job) {
      var i :| 0 <= i < |job.outcome.items| && job.outcome.items[i] == App(x.name, x.kind);
      assert AppsOf(job)[i] == x;
    }
  }

  /** The apps of the index are those that successful tenants listed. */
  lemma {:induction false} AppsComeFromTenants(order: seq<Job>, x: PaletteApp)
    ensures x in AllApps(order) <==> exists i :: 0 <= i < |order| && ListedBy(x, order[i])
  {
    if order != [] {
      var init, last := order[..|order| - 1], order[|order| - 1];
      AppsComeFromTenants(init, x);
      ListedByIff(x, last);
      assert AllApps(order) == AllApps(init) + AppsOf(last);
      if i :| 0 <= i < |init| && ListedBy(x, init[i]) { assert ListedBy(x, order[i]); }
      if ListedBy(x, last) { assert ListedBy(x, order[|init|]); }
      if i :| 0 <= i < |order| && ListedBy(x, order[i]) {
        if i < |init| { assert ListedBy(x, init[i]); }
      }
    }
  }

  lemma {:induction false} TruncatedComeFromTenants(order: seq<Job>, tenant: string)
    ensures tenant in AllTruncated(order) <==>
            exists i :: 0 <= i < |order| && order[i].tenant == tenant && order[i].outcome.Listed?
                        && order[i].outcome.truncated
  {
    if order != [] {
      var init, last := order[..|order| - 1], order[|order| - 1];
      TruncatedComeFromTenants(init, tenant);
      AppsAreListed(last);
      assert AllTruncated(order) == AllTruncated(init) + TruncatedOf(last);
      assert forall i | 0 <= i < |init| :: init[i] == order[i];
    }
  }

  /** Two texts in the order in which the index shows them. */
  ghost predicate InOrder(a: string, b: string) { a == b || exists i: nat :: PartAt(a, b, i) }

  lemma NotLessIsInOrder(a: string, b: string)
    requires !StringLess(b, a)
    ensures InOrder(a, b)
  {
    StringLessTotal(a, b);
    if a != b { StringLessIff(a, b); }
  }

  /** Any response is ordered by tenant and, within a tenant, by name, and so are the truncated tenants. */
  lemma IndexIsOrdered(jobs: seq<Job>, apps: seq<PaletteApp>, truncated: seq<string>, i: nat, j: nat)
    requires PossibleIndex(jobs, apps, truncated) && i < j
    ensures j < |apps| ==>
              InOrder(apps[i].tenant, apps[j].tenant) &&
              (apps[i].tenant == apps[j].tenant ==> InOrder(apps[i].name, apps[j].name))
    ensures j < |truncated| ==> InOrder(truncated[i], truncated[j])
  {
    var order :| multiset(order) == multiset(jobs)
                 && IsSortOf(AppLess, apps, AllApps(order)) && IsSortOf(StringLess, truncated, AllTruncated(order));
    if j < |apps| {
      assert !AppLess(apps[j], apps[i]);
      if apps[i].tenant == apps[j].tenant { NotLessIsInOrder(apps[i].name, apps[j].name); }
      if apps[i].tenant != apps[j].tenant { NotLessIsInOrder(apps[i].tenant, apps[j].tenant); }
    }
    if j < |truncated| {
      assert !StringLess(truncated[j], truncated[i]);
      NotLessIsInOrder(truncated[i], truncated[j]);
    }
  }
}

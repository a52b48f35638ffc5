/** The price list page, `src/pages/ServicesPage.jsx`: the category buttons, the services
    of the selected category, and the services grouped under their category headings. */
module ServicesPage {
  import Seqs

  /** A row of `GET /api/services` as the page reads it; prices in grosze. */
  datatype Service = Service(id: int, name: string, category: string, price: int, duration: int)

  /** `services.map(service => service.category)` */
  function CategoryList(services: seq<Service>): (r: seq<string>)
    ensures |r| == |services|
    ensures forall k :: 0 <= k < |r| ==> r[k] == services[k].category
  {
    seq(|services|, k requires 0 <= k < |services| => services[k].category)
  }

  /** `categories`: `all`, then each category once, in order of first appearance. */
  function Categories(services: seq<Service>): seq<string>
  {
    ["all"] + Seqs.Distinct(CategoryList(services))
  }

  /** The buttons after `all` name each category of the services exactly once, in the
      order the categories first appear. */
  lemma CategoriesSpec(services: seq<Service>)
    ensures var r := Categories(services);
            && r[0] == "all"
            && (forall c :: c in r[1..] <==> exists s :: s in services && s.category == c)
            && (forall i, j :: 1 <= i < j < |r| ==> r[i] != r[j])
            && Seqs.IsSubsequence(r[1..], CategoryList(services))
  {
    var cats := CategoryList(services);
    var r := Categories(services);
    assert r[1..] == Seqs.Distinct(cats);
    forall c | exists s :: s in services && s.category == c ensures c in r[1..] {
      var s :| s in services && s.category == c;
      var k :| 0 <= k < |services| && services[k] == s;
      assert cats[k] == c;
    }
    forall c | c in r[1..] ensures exists s :: s in services && s.category == c {
      var k :| 0 <= k < |cats| && cats[k] == c;
      assert services[k] in services;
    }
    Seqs.DistinctIsSubsequence(cats);
  }

  function InCategory(c: string): Service -> bool
  {
    (s: Service) => s.category == c
  }

  /** `filteredServices` */
  function FilteredServices(services: seq<Service>, selectedCategory: string): (r: seq<Service>)
    ensures |r| <= |services|
  {
    if selectedCategory == "all" then services else Seqs.Filter(services, InCategory(selectedCategory))
  }

  /** `all` shows every service; any other button shows exactly the services of that
      category, in their original order. */
  lemma FilteredServicesSpec(services: seq<Service>, selectedCategory: string)
    ensures selectedCategory == "all" ==> FilteredServices(services, selectedCategory) == services
    ensures selectedCategory != "all" ==>
              forall s :: s in FilteredServices(services, selectedCategory) <==>
                            s in services && s.category == selectedCategory
    ensures Seqs.IsSubsequence(FilteredServices(services, selectedCategory), services)
  {
    var p := InCategory(selectedCategory);
    Seqs.FilterMembers(services, p);
    Seqs.FilterIsSubsequence(services, p);
    if selectedCategory == "all" {
      Seqs.FilterAll(services, (s: Service) => true);
      Seqs.FilterIsSubsequence(services, (s: Service) => true);
    }
  }

  /** The number of services under the headings `order`. */
  function GroupSizes(groups: map<string, seq<Service>>, order: seq<string>): nat
  {
    if order == [] then 0
    else GroupSizes(groups, order[..|order| - 1])
         + (if order[|order| - 1] in groups then |groups[order[|order| - 1]]| else 0)
  }

  /** Headings `order` and groups `groups` describe the services `done`: the headings are
      the categories in order of first appearance, each keyed group holds exactly the
      services of its category in their order, and together they hold every service once. */
  ghost predicate Grouped(done: seq<Service>, groups: map<string, seq<Service>>, order: seq<string>)
  {
    && order == Seqs.Distinct(CategoryList(done))
    && (forall c :: c in groups <==> c in order)
    && (forall c :: c in groups ==> groups[c] == Seqs.Filter(done, InCategory(c)))
    && GroupSizes(groups, order) == |done|
  }

  /** `groupedServices`: for each service in turn, a heading for its category is created
      when missing and the service is appended under it. */
  method GroupServices(filtered: seq<Service>) returns (groups: map<string, seq<Service>>, order: seq<string>)
    ensures Grouped(filtered, groups, order)
  {
    groups := map[];
    order := [];
    var i := 0;
    while i < |filtered|
      invariant 0 <= i <= |filtered|
      invariant Grouped(filtered[..i], groups, order)
    {
      var service := filtered[i];
      var c := service.category;
      var groups0, order0 := groups, order;
      if c !in groups {
        groups := groups[c := []];
        order := order + [c];
      }
      var base := groups;
      groups := groups[c := groups[c] + [service]];
      GroupStep(filtered[..i], service, groups0, order0, base, groups, order);
      Seqs.TakeSnoc(filtered, i);
      i := i + 1;
    }
    assert filtered[..i] == filtered;
  }

  /** Under the `all` button the headings are the category buttons after `all`, in the
      same order, and every service sits under the heading of its own category. */
  lemma GroupedHeadings(services: seq<Service>, groups: map<string, seq<Service>>, order: seq<string>)
    requires Grouped(services, groups, order)
    ensures order == Categories(services)[1..]
    ensures forall s :: s in services ==> s.category in groups && s in groups[s.category]
  {
    forall s | s in services ensures s.category in groups && s in groups[s.category] {
      DistinctHas(services, s);
      Seqs.FilterMembers(services, InCategory(s.category));
    }
  }

  /** One more service keeps the grouping: its category gets a heading when it is new, and
      the service is appended under that heading only. */
  lemma GroupStep(done: seq<Service>, service: Service, groups: map<string, seq<Service>>,
                  order: seq<string>, base: map<string, seq<Service>>,
                  groups': map<string, seq<Service>>, order': seq<string>)
    requires Grouped(done, groups, order)
    requires base == if service.category in groups then groups else groups[service.category := []]
    requires groups' == base[service.category := base[service.category] + [service]]
    requires order' == if service.category in groups then order else order + [service.category]
    ensures Grouped(done + [service], groups', order')
  {
    StepOrder(done, service, groups, order, order');
    StepGroups(done, service, groups, order, base, groups');
    GroupSizesStep(groups, order, service.category, base, service);
  }

  /** The headings after one more service: its category is added when it is new. */
  lemma StepOrder(done: seq<Service>, service: Service, groups: map<string, seq<Service>>,
                  order: seq<string>, order': seq<string>)
    requires order == Seqs.Distinct(CategoryList(done))
    requires forall c :: c in groups <==> c in order
    requires order' == if service.category in groups then order else order + [service.category]
    ensures order' == Seqs.Distinct(CategoryList(done + [service]))
  {
    CategoryListSnoc(done, service);
    Seqs.DistinctSnoc(CategoryList(done), service.category);
  }

  lemma CategoryListSnoc(done: seq<Service>, service: Service)
    ensures CategoryList(done + [service]) == CategoryList(done) + [service.category]
  {
  }

  /** The groups after one more service: it is appended under its own heading only. */
  lemma StepGroups(done: seq<Service>, service: Service, groups: map<string, seq<Service>>,
                   order: seq<string>, base: map<string, seq<Service>>, groups': map<string, seq<Service>>)
    requires order == Seqs.Distinct(CategoryList(done))
    requires forall c :: c in groups <==> c in order
    requires forall c :: c in groups ==> groups[c] == Seqs.Filter(done, InCategory(c))
    requires base == if service.category in groups then groups else groups[service.category := []]
    requires groups' == base[service.category := base[service.category] + [service]]
    ensures forall d :: d in groups' <==> d in groups || d == service.category
    ensures forall d :: d in groups' ==> groups'[d] == Seqs.Filter(done + [service], InCategory(d))
  {
    var c := service.category;
    forall d | d in groups' ensures groups'[d] == Seqs.Filter(done + [service], InCategory(d)) {
      if d == c && c !in groups {
        NewCategoryEmpty(done, c);
      }
      FilterSnoc(done, service, d);
    }
  }

  /** The services of category `d` after one more service. */
  lemma FilterSnoc(done: seq<Service>, service: Service, d: string)
    ensures Seqs.Filter(done + [service], InCategory(d)) ==
              Seqs.Filter(done, InCategory(d)) + (if service.category == d then [service] else [])
  {
    Seqs.FilterAppend(done, [service], InCategory(d));
    assert [service][1..] == [];
  }

  /** A category without a heading yet has no service among those done. */
  lemma NewCategoryEmpty(done: seq<Service>, c: string)
    requires c !in Seqs.Distinct(CategoryList(done))
    ensures Seqs.Filter(done, InCategory(c)) == []
  {
    var f := Seqs.Filter(done, InCategory(c));
    Seqs.FilterMembers(done, InCategory(c));
    if f != [] {
      Seqs.First(f);
      DistinctHas(done, f[0]);
      assert false;
    }
  }

  /** A category of the services done so far already has its heading. */
  lemma DistinctHas(done: seq<Service>, s: Service)
    requires s in done
    ensures s.category in Seqs.Distinct(CategoryList(done))
  {
    var k :| 0 <= k < |done| && done[k] == s;
    assert CategoryList(done)[k] == s.category;
  }

  lemma GroupSizesStep(groups: map<string, seq<Service>>, order: seq<string>, c: string,
                       base: map<string, seq<Service>>, service: Service)
    requires forall d :: d in groups <==> d in order
    requires forall i, j :: 0 <= i < j < |order| ==> order[i] != order[j]
    requires base == if c in groups then groups else groups[c := []]
    ensures var order' := if c in groups then order else order + [c];
            GroupSizes(base[c := base[c] + [service]], order') == GroupSizes(groups, order) + 1
  {
    var groups' := base[c := base[c] + [service]];
    if c in groups {
      GroupSizesUpdate(groups, order, c, groups[c] + [service]);
    } else {
      assert base[c] + [service] == [service];
      assert groups' == groups[c := [service]];
      GroupSizesOther(groups, order, c, [service]);
      assert (order + [c])[..|order|] == order;
    }
  }

  /** Replacing the services under a heading that `order` lists once changes the total by
      the difference. */
  lemma {:induction false} GroupSizesUpdate(groups: map<string, seq<Service>>, order: seq<string>, c: string, v: seq<Service>)
    requires c in groups
    requires forall i, j :: 0 <= i < j < |order| ==> order[i] != order[j]
    requires c in order
    ensures GroupSizes(groups[c := v], order) == GroupSizes(groups, order) - |groups[c]| + |v|
  {
    var init := order[..|order| - 1];
    if order[|order| - 1] == c {
      GroupSizesOther(groups, init, c, v);
    } else {
      assert c in init by {
        var k :| 0 <= k < |order| && order[k] == c;
        assert init[k] == c;
      }
      GroupSizesUpdate(groups, init, c, v);
    }
  }

  /** Headings that `order` does not list do not count. */
  lemma {:induction false} GroupSizesOther(groups: map<string, seq<Service>>, order: seq<string>, c: string, v: seq<Service>)
    requires c !in order
    ensures GroupSizes(groups[c := v], order) == GroupSizes(groups, order)
  {
    if order != [] {
      var init := order[..|order| - 1];
      GroupSizesOther(groups, init, c, v);
    }
  }
}

/**
 The projects page: which project is featured, which projects the active
 category tab lists, which cards the grid shows, and how many technology
 chips a card shows before its "+N" badge.
 */
module Projects {
  import opened Wrappers

  /** `Project.category`: a closed union of five ids. */
  datatype Category = Web | Backend | Ai | Mobile | Other

  function CategoryId(c: Category): (id: string)
    ensures id != "all" && id != "codes"
  {
    match c
    case Web => "web"
    case Backend => "backend"
    case Ai => "ai"
    case Mobile => "mobile"
    case Other => "other"
  }

  /** The fields of a project that the page's list logic reads. */
  datatype Project = Project(id: string, title: string, techStack: seq<string>, featured: bool, category: Category)

  /** The ids of the category tabs, in display order. */
  const Tabs := ["all", "web", "backend", "codes"]
  const AllTab := "all"

  /** `activeCategory` before any tab is clicked. */
  const InitialTab := AllTab

  /** `ys` is `xs` with some elements left out, the rest in their original order. */
  ghost predicate IsSubsequence<T>(ys: seq<T>, xs: seq<T>)
    decreases |xs|
  {
    if |ys| == 0 then true
    else if |xs| == 0 then false
    else (ys[0] == xs[0] && IsSubsequence(ys[1..], xs[1..])) || IsSubsequence(ys, xs[1..])
  }

  /** `Array.prototype.filter`. */
  function Filter<T(!new)>(xs: seq<T>, keep: T -> bool): (r: seq<T>)
    ensures IsSubsequence(r, xs)
    ensures forall i | 0 <= i < |r| :: keep(r[i])
    ensures forall x | x in xs && keep(x) :: x in r
    ensures forall x :: multiset(r)[x] == if keep(x) then multiset(xs)[x] else 0
  {
    if |xs| == 0 then []
    else
      var rest := Filter(xs[1..], keep);
      assert xs == [xs[0]] + xs[1..];
      if keep(xs[0]) then
        var r := [xs[0]] + rest;
        assert r[1..] == rest;
        r
      else rest
  }

  /** A filter that keeps every element returns its input. */
  lemma {:induction false} FilterKeepsAll<T(!new)>(xs: seq<T>, keep: T -> bool)
    requires forall i | 0 <= i < |xs| :: keep(xs[i])
    ensures Filter(xs, keep) == xs
  {
    if |xs| > 0 {
      FilterKeepsAll(xs[1..], keep);
    }
  }

  /** A filter that keeps nothing returns the empty list. */
  lemma FilterKeepsNone<T(!new)>(xs: seq<T>, keep: T -> bool)
    requires forall i | 0 <= i < |xs| :: !keep(xs[i])
    ensures Filter(xs, keep) == []
  {
  }

  /** `projects.findIndex(p => p.featured)`, as an index. */
  function FeaturedIndex(ps: seq<Project>): (r: Option<nat>)
    ensures r.Some? ==> r.value < |ps| && ps[r.value].featured
    ensures r.Some? ==> forall j | 0 <= j < r.value :: !ps[j].featured
    ensures r.None? <==> forall j | 0 <= j < |ps| :: !ps[j].featured
  {
    if |ps| == 0 then None
    else if ps[0].featured then Some(0)
    else match FeaturedIndex(ps[1..])
      case None => None
      case Some(i) => Some(i + 1)
  }

  /** `featuredProject`: the first featured project, if there is one. */
  function FeaturedProject(ps: seq<Project>): (r: Option<Project>)
    ensures r.Some? <==> exists i | 0 <= i < |ps| :: ps[i].featured
    ensures r.Some? ==> exists i | 0 <= i < |ps| :: ps[i] == r.value && ps[i].featured && forall j | 0 <= j < i :: !ps[j].featured
  {
    match FeaturedIndex(ps)
    case None => None
    case Some(i) => Some(ps[i])
  }

  /** The tab test: everything on "all", otherwise the projects of that category. */
  predicate InTab(active: string, p: Project) {
    active == AllTab || CategoryId(p.category) == active
  }

  /** `filteredProjects`: the projects the active tab lists, in their original order. */
  function FilteredProjects(ps: seq<Project>, active: string): (r: seq<Project>)
    ensures IsSubsequence(r, ps)
    ensures forall i | 0 <= i < |r| :: active == AllTab || CategoryId(r[i].category) == active
    ensures forall i | 0 <= i < |ps| && InTab(active, ps[i]) :: ps[i] in r
  {
    Filter(ps, p => InTab(active, p))
  }

  /** `featuredProject?.id`. */
  function FeaturedId(ps: seq<Project>): Option<string> {
    match FeaturedProject(ps)
    case None => None
    case Some(f) => Some(f.id)
  }

  /** The grid test: on "all", drop the projects carrying the featured project's id. */
  predicate InGrid(ps: seq<Project>, active: string, p: Project) {
    active != AllTab || FeaturedId(ps) != Some(p.id)
  }

  /** `nonFeaturedProjects`: the tab's list without the featured project's id on "all". */
  function NonFeaturedProjects(ps: seq<Project>, active: string): (r: seq<Project>)
    ensures IsSubsequence(r, FilteredProjects(ps, active))
    ensures forall i | 0 <= i < |r| :: InTab(active, r[i]) && (active == AllTab ==> FeaturedId(ps) != Some(r[i].id))
    ensures forall p | p in FilteredProjects(ps, active) && InGrid(ps, active, p) :: p in r
  {
    Filter(FilteredProjects(ps, active), p => InGrid(ps, active, p))
  }

  /** On "all" the filtered list is the whole list, in order. */
  lemma AllTabListsEverything(ps: seq<Project>)
    ensures FilteredProjects(ps, AllTab) == ps
  {
    FilterKeepsAll(ps, p => InTab(AllTab, p));
  }

  /** On any other tab the filtered list holds exactly the projects of that category, in their order. */
  lemma CategoryTabLists(ps: seq<Project>, active: string, p: Project)
    requires active != AllTab
    ensures p in FilteredProjects(ps, active) <==> p in ps && CategoryId(p.category) == active
    ensures IsSubsequence(FilteredProjects(ps, active), ps)
  {
    var r := FilteredProjects(ps, active);
    if p in r {
      assert multiset(r)[p] > 0;
    }
  }

  /** Off the "all" tab nothing is set aside for the featured card. */
  lemma NonFeaturedOffAll(ps: seq<Project>, active: string)
    requires active != AllTab
    ensures NonFeaturedProjects(ps, active) == FilteredProjects(ps, active)
  {
    FilterKeepsAll(FilteredProjects(ps, active), p => InGrid(ps, active, p));
  }

  /** On "all" the grid lists exactly the projects whose id differs from the featured one's. */
  lemma NonFeaturedOnAll(ps: seq<Project>, p: Project)
    ensures p in NonFeaturedProjects(ps, AllTab) <==> p in ps && FeaturedId(ps) != Some(p.id)
    ensures FeaturedProject(ps).None? ==> NonFeaturedProjects(ps, AllTab) == ps
  {
    AllTabListsEverything(ps);
    var r := NonFeaturedProjects(ps, AllTab);
    if p in r {
      assert multiset(r)[p] > 0;
    }
    if FeaturedProject(ps).None? {
      FilterKeepsAll(ps, p => InGrid(ps, AllTab, p));
    }
  }

  /** The "codes" tab matches no category, so its list is always empty. */
  lemma CodesTabEmpty(ps: seq<Project>)
    ensures FilteredProjects(ps, "codes") == []
    ensures NonFeaturedProjects(ps, "codes") == []
  {
    FilterKeepsNone(ps, p => InTab("codes", p));
  }

  /** The grid area: cards, or the "No projects found in this category." notice. */
  datatype Grid = Cards(items: seq<Project>) | NothingFound

  /** What the page renders below the tabs. */
  datatype View = Spinner | Loaded(featuredCard: Option<Project>, grid: Grid)

  function Render(ps: seq<Project>, active: string, loading: bool): (v: View)
    ensures v.Spinner? <==> loading
    ensures v.Loaded? ==> (v.featuredCard.Some? <==> FeaturedProject(ps).Some? && active == AllTab)
    ensures v.Loaded? && v.featuredCard.Some? ==> v.featuredCard == FeaturedProject(ps)
    ensures v.Loaded? ==> (v.grid.NothingFound? <==> NonFeaturedProjects(ps, active) == [])
    ensures v.Loaded? && v.grid.Cards? ==> v.grid.items == NonFeaturedProjects(ps, active) != []
  {
    if loading then Spinner
    else
      var nf := NonFeaturedProjects(ps, active);
      Loaded(if active == AllTab then FeaturedProject(ps) else None, if |nf| > 0 then Cards(nf) else NothingFound)
  }

  /** The featured project is never also drawn as a card: no card carries its id. */
  lemma FeaturedNotRepeated(ps: seq<Project>, active: string)
    requires Render(ps, active, false).featuredCard.Some?
    ensures var v := Render(ps, active, false);
      v.grid.Cards? ==> forall i | 0 <= i < |v.grid.items| :: v.grid.items[i].id != v.featuredCard.value.id
  {
  }

  /** Project ids are distinct. */
  predicate UniqueIds(ps: seq<Project>) {
    forall i, j | 0 <= i < j < |ps| :: ps[i].id != ps[j].id
  }

  /** On "all" with distinct ids, every project appears exactly where expected: as the featured card or among the cards. */
  lemma AllTabShowsEveryProject(ps: seq<Project>, p: Project)
    requires UniqueIds(ps) && p in ps
    ensures var v := Render(ps, AllTab, false);
      v.featuredCard == Some(p) || (v.grid.Cards? && p in v.grid.items)
  {
    NonFeaturedOnAll(ps, p);
    var v := Render(ps, AllTab, false);
    if FeaturedId(ps) == Some(p.id) {
      var i := FeaturedIndex(ps).value;
      var j :| 0 <= j < |ps| && ps[j] == p;
      assert ps[i].id == ps[j].id;
    }
  }

  /**
   Each tab button's list: the first tab, which is also the one shown
   before any click, lists everything in order; every other tab lists
   exactly the projects of its own category id, in order.
   */
  lemma EveryTabFilters(ps: seq<Project>, i: int, p: Project)
    requires 0 <= i < |Tabs|
    ensures Tabs[0] == InitialTab
    ensures i == 0 ==> FilteredProjects(ps, Tabs[i]) == ps
    ensures i > 0 ==> (p in FilteredProjects(ps, Tabs[i]) <==> p in ps && CategoryId(p.category) == Tabs[i])
  {
    if i == 0 {
      AllTabListsEverything(ps);
    } else {
      CategoryTabLists(ps, Tabs[i], p);
    }
  }

  /** A loaded page on the "codes" tab shows the empty notice. */
  lemma CodesTabShowsNotice(ps: seq<Project>)
    ensures Render(ps, "codes", false) == Loaded(None, NothingFound)
  {
    CodesTabEmpty(ps);
  }

  /** A project card's technology chips and its overflow badge. */
  datatype Chips = Chips(shown: seq<string>, badge: Option<nat>)

  const MaxChips := 4

  /** `techStack.slice(0, 4)` and, when `techStack.length > 4`, the badge `+{techStack.length - 4}`. */
  function TechChips(stack: seq<string>): (c: Chips)
    ensures |c.shown| == if |stack| < MaxChips then |stack| else MaxChips
    ensures c.shown == stack[..|c.shown|]
    ensures c.badge.Some? <==> |stack| > MaxChips
  {
    if |stack| > MaxChips then Chips(stack[..MaxChips], Some(|stack| - MaxChips))
    else Chips(stack, None)
  }

  /** Every technology is accounted for: the chips show a prefix and the badge counts the rest. */
  lemma ChipsAccountForAll(stack: seq<string>)
    ensures var c := TechChips(stack);
      c.shown + stack[|c.shown|..] == stack && |c.shown| + c.badge.GetOr(0) == |stack|
  {
  }
}

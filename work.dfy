/** The "My Work" section: project cards filtered by category, each card
    opening a detail dialog whose blocks appear only for the fields the
    project has. */
module Work {
  import opened Options
  import opened Text
  import CategoryFilter

  /** The long-form part of a project. Fields the section never renders
      (designThinking, execution, keyFeatures, impact, lookingAhead,
      approach) are not modelled. */
  datatype Details = Details(
    overview: string,
    myRole: Option<seq<string>>,
    challenge: Option<string>,
    solution: Option<string>,
    videoUrl: Option<string>,
    galleryImages: Option<seq<string>>)

  datatype Project = Project(
    id: string,
    title: string,
    category: string,
    tagline: Option<string>,
    imageUrl: string,
    client: Option<string>,
    details: Option<Details>)

  function CategoryOf(p: Project): string {
    p.category
  }

  /** The `categories` memo: 'All', then the distinct categories of the
      projects in first-seen order. */
  function Categories(projects: seq<Project>): seq<string> {
    CategoryFilter.CategoryList(projects, CategoryOf)
  }

  /** The `filteredProjects` memo. */
  function FilteredProjects(projects: seq<Project>, selected: string): seq<Project> {
    CategoryFilter.Select(projects, CategoryOf, selected)
  }

  /** The "No projects found in this category." message is rendered. */
  predicate ShowsEmptyState(projects: seq<Project>, selected: string) {
    |FilteredProjects(projects, selected)| == 0
  }

  /** `projects.map(project => project.category)`. */
  function ProjectCategories(projects: seq<Project>): seq<string> {
    CategoryFilter.CategoriesOf(projects, CategoryOf)
  }

  /** The first element of the category list is 'All'; later elements are
      categories of projects; every project's category has a button; the
      buttons are distinct exactly when no project is categorised 'All'. */
  lemma CategoriesShape(projects: seq<Project>)
    ensures Categories(projects)[0] == "All"
    ensures forall k :: 1 <= k < |Categories(projects)| ==>
      exists i :: 0 <= i < |projects| && projects[i].category == Categories(projects)[k]
    ensures forall i :: 0 <= i < |projects| ==> projects[i].category in Categories(projects)
    ensures CategoryFilter.NoDuplicates(Categories(projects)) <==>
      forall i :: 0 <= i < |projects| ==> projects[i].category != "All"
  {
    CategoryFilter.CategoryListContents(projects, CategoryOf);
  }

  /** After 'All', the categories are listed in the order in which they
      first appear among the projects. */
  lemma CategoriesInFirstSeenOrder(projects: seq<Project>, i: nat, j: nat)
    requires 1 <= i < j < |Categories(projects)|
    ensures Categories(projects)[i] in ProjectCategories(projects)
    ensures Categories(projects)[j] in ProjectCategories(projects)
    ensures CategoryFilter.FirstIndex(ProjectCategories(projects), Categories(projects)[i]) <
            CategoryFilter.FirstIndex(ProjectCategories(projects), Categories(projects)[j])
  {
    CategoryFilter.CategoryListFirstSeen(projects, CategoryOf, i, j);
  }

  /** 'All' shows every project, unchanged in length and order. */
  lemma FilterAllIsIdentity(projects: seq<Project>)
    ensures FilteredProjects(projects, "All") == projects
  {
  }

  /** Any other category shows exactly the projects of that category, in
      their original order, each as often as it occurs. */
  lemma FilterCategoryKeepsOrder(projects: seq<Project>, selected: string)
    requires selected != "All"
    ensures CategoryFilter.IsSubsequence(FilteredProjects(projects, selected), projects)
    ensures forall p :: p in FilteredProjects(projects, selected) ==> p.category == selected
    ensures forall p :: p in projects && p.category == selected ==>
      multiset(FilteredProjects(projects, selected))[p] == multiset(projects)[p]
  {
    CategoryFilter.KeepSpec(projects, CategoryOf, selected);
  }

  /** The empty state is shown exactly when the filtered list is empty, that
      is, when no project has the selected category (or there are no
      projects at all and 'All' is selected). */
  lemma EmptyStateIff(projects: seq<Project>, selected: string)
    ensures ShowsEmptyState(projects, selected) <==>
      if selected == "All" then projects == []
      else forall i :: 0 <= i < |projects| ==> projects[i].category != selected
  {
    CategoryFilter.SelectEmptyIff(projects, CategoryOf, selected);
  }

  /** A category chosen from the buttons never shows the empty state unless
      there are no projects. */
  lemma ListedCategoryNeverEmpty(projects: seq<Project>, selected: string)
    requires selected in Categories(projects)
    ensures ShowsEmptyState(projects, selected) <==> projects == []
  {
    CategoryFilter.ListedCategoryEmptyIff(projects, CategoryOf, selected);
  }

  /** A JavaScript string in a condition: present and non-empty. */
  predicate Truthy(s: Option<string>) {
    s.Some? && s.value != ""
  }

  /** The optional lines of a card under its title. */
  datatype CardLine = TaglineLine(tagline: string) | ClientLine(client: string)

  function CardLines(p: Project): (lines: seq<CardLine>) {
    (if Truthy(p.tagline) then [TaglineLine(p.tagline.value)] else []) +
    (if Truthy(p.client) then [ClientLine(p.client.value)] else [])
  }

  /** One image of a project's gallery block; `alt` is
      `${title} gallery ${n}` with n counted from 1. */
  datatype GalleryTile = GalleryTile(src: string, alt: string)

  /** The blocks of the detail dialog below the main image. */
  datatype Block =
    | Overview(text: string)
    | Roles(roles: seq<string>)
    | Challenge(text: string)
    | Solution(text: string)
    | Gallery(tiles: seq<GalleryTile>)
    | Video(src: string)

  /** The iframe source: the first `watch?v=` becomes `embed/`. */
  function EmbedUrl(videoUrl: string): string {
    ReplaceFirst(videoUrl, "watch?v=", "embed/")
  }

  function GalleryAlt(title: string, index: nat): string {
    title + " gallery " + DecimalString(index + 1)
  }

  function GalleryTiles(title: string, images: seq<string>): (tiles: seq<GalleryTile>)
    ensures |tiles| == |images|
    ensures forall k :: 0 <= k < |images| ==>
      tiles[k] == GalleryTile(images[k], GalleryAlt(title, k))
  {
    seq(|images|, k requires 0 <= k < |images| => GalleryTile(images[k], GalleryAlt(title, k)))
  }

  /** The dialog body for a project, in rendering order. */
  function DialogBlocks(p: Project): seq<Block> {
    match p.details
    case None => []
    case Some(d) => DetailBlocks(p.title, d)
  }

  /** Card lines appear exactly for a present, non-empty tagline and client. */
  lemma CardLinesOnlyWhenPresent(p: Project)
    ensures (exists l :: l in CardLines(p) && l.TaglineLine?) <==> Truthy(p.tagline)
    ensures (exists l :: l in CardLines(p) && l.ClientLine?) <==> Truthy(p.client)
    ensures forall l :: l in CardLines(p) && l.TaglineLine? ==> l.tagline == p.tagline.value
    ensures forall l :: l in CardLines(p) && l.ClientLine? ==> l.client == p.client.value
  {
    if Truthy(p.tagline) {
      assert CardLines(p)[0].TaglineLine?;
    }
    if Truthy(p.client) {
      assert CardLines(p)[|CardLines(p)| - 1].ClientLine?;
    }
  }

  /** The dialog body for the details of a project titled `title`. */
  function DetailBlocks(title: string, d: Details): seq<Block> {
    [Overview(d.overview)] +
    (if d.myRole.Some? then [Roles(d.myRole.value)] else []) +
    (if Truthy(d.challenge) then [Challenge(d.challenge.value)] else []) +
    (if Truthy(d.solution) then [Solution(d.solution.value)] else []) +
    (if d.galleryImages.Some? && |d.galleryImages.value| > 0
      then [Gallery(GalleryTiles(title, d.galleryImages.value))] else []) +
    (if Truthy(d.videoUrl) then [Video(EmbedUrl(d.videoUrl.value))] else [])
  }

  /** A block is in the dialog exactly when the overview is it or it is the
      block of one of the optional fields that is shown. */
  lemma DetailBlocksMembers(title: string, d: Details, x: Block)
    ensures x in DetailBlocks(title, d) <==>
      || x == Overview(d.overview)
      || (d.myRole.Some? && x == Roles(d.myRole.value))
      || (Truthy(d.challenge) && x == Challenge(d.challenge.value))
      || (Truthy(d.solution) && x == Solution(d.solution.value))
      || (d.galleryImages.Some? && |d.galleryImages.value| > 0 &&
          x == Gallery(GalleryTiles(title, d.galleryImages.value)))
      || (Truthy(d.videoUrl) && x == Video(EmbedUrl(d.videoUrl.value)))
  {
  }

  /** Each dialog block appears exactly when its field is there: the
      overview whenever details exist, the roles whenever the list is present
      (an array is always truthy), challenge, solution and video only for
      non-empty strings, the gallery only for a non-empty list. */
  lemma DialogBlocksOnlyWhenPresent(p: Project)
    ensures DialogBlocks(p) == [] <==> p.details.None?
    ensures p.details.Some? ==> DialogBlocks(p)[0] == Overview(p.details.value.overview)
    ensures (exists b :: b in DialogBlocks(p) && b.Roles?) <==>
      p.details.Some? && p.details.value.myRole.Some?
    ensures (exists b :: b in DialogBlocks(p) && b.Challenge?) <==>
      p.details.Some? && Truthy(p.details.value.challenge)
    ensures (exists b :: b in DialogBlocks(p) && b.Solution?) <==>
      p.details.Some? && Truthy(p.details.value.solution)
    ensures (exists b :: b in DialogBlocks(p) && b.Gallery?) <==>
      p.details.Some? && p.details.value.galleryImages.Some? && |p.details.value.galleryImages.value| > 0
    ensures (exists b :: b in DialogBlocks(p) && b.Video?) <==>
      p.details.Some? && Truthy(p.details.value.videoUrl)
  {
    if p.details.Some? {
      var d := p.details.value;
      forall x | x in DialogBlocks(p) {
        DetailBlocksMembers(p.title, d, x);
      }
      if d.myRole.Some? { DetailBlocksMembers(p.title, d, Roles(d.myRole.value)); }
      if Truthy(d.challenge) { DetailBlocksMembers(p.title, d, Challenge(d.challenge.value)); }
      if Truthy(d.solution) { DetailBlocksMembers(p.title, d, Solution(d.solution.value)); }
      if d.galleryImages.Some? && |d.galleryImages.value| > 0 {
        DetailBlocksMembers(p.title, d, Gallery(GalleryTiles(p.title, d.galleryImages.value)));
      }
      if Truthy(d.videoUrl) { DetailBlocksMembers(p.title, d, Video(EmbedUrl(d.videoUrl.value))); }
    }
  }

  /** The video block plays the embed form of the URL, and the gallery block
      shows the images in order with alt texts numbered from 1. */
  lemma DialogBlockContents(p: Project)
    ensures forall b :: b in DialogBlocks(p) && b.Video? ==>
      b.src == EmbedUrl(p.details.value.videoUrl.value)
    ensures forall b :: b in DialogBlocks(p) && b.Gallery? ==>
      |b.tiles| == |p.details.value.galleryImages.value| &&
      forall k :: 0 <= k < |b.tiles| ==>
        b.tiles[k].src == p.details.value.galleryImages.value[k] &&
        b.tiles[k].alt == p.title + " gallery " + DecimalString(k + 1)
  {
    if p.details.Some? {
      forall x | x in DialogBlocks(p) {
        DetailBlocksMembers(p.title, p.details.value, x);
      }
    }
  }

  /** The embed URL changes only the first `watch?v=`: a URL without it is
      unchanged; otherwise the text before it is kept, `embed/` takes its
      place, the text after it is kept (later occurrences included), and the
      URL becomes two characters shorter. */
  lemma EmbedUrlReplacesFirstOnly(url: string)
    ensures IndexOf(url, "watch?v=").None? ==> EmbedUrl(url) == url
    ensures IndexOf(url, "watch?v=").Some? ==>
      var i := IndexOf(url, "watch?v=").value;
      && |EmbedUrl(url)| == |url| - 2
      && EmbedUrl(url) == url[..i] + "embed/" + url[i + 8..]
      && IndexOf(url[..i], "watch?v=").None?
  {
    var r := EmbedUrl(url);
    match IndexOf(url, "watch?v=")
    case None =>
    case Some(i) =>
      assert r == url[..i] + "embed/" + url[i + 8..];
      var q := IndexOf(url[..i], "watch?v=");
      if q.Some? {
        assert url[..i][q.value..q.value + 8] == url[q.value..q.value + 8];
        assert OccursAt(url, "watch?v=", q.value);
      }
  }

  /** Only the first occurrence is rewritten: the second one survives. */
  lemma EmbedUrlKeepsSecondOccurrence()
    ensures EmbedUrl("watch?v=watch?v=") == "embed/watch?v="
  {
    assert OccursAt("watch?v=watch?v=", "watch?v=", 0);
    assert IndexOf("watch?v=watch?v=", "watch?v=") == Some(0);
  }

  /** The section's own state: the selected category (`selectedCategory`)
      over the loaded projects. */
  class WorkSection {
    const projects: seq<Project>
    var selectedCategory: string

    ghost predicate Valid()
      reads this
    {
      selectedCategory in Categories(projects)
    }

    constructor (projects: seq<Project>)
      ensures this.projects == projects
      ensures selectedCategory == "All"
      ensures Valid()
    {
      this.projects := projects;
      selectedCategory := "All";
    }

    /** A click on the category button at position `index`. */
    method SelectCategory(index: nat)
      requires index < |Categories(projects)|
      modifies this
      ensures selectedCategory == Categories(projects)[index]
      ensures Valid()
    {
      selectedCategory := Categories(projects)[index];
    }

    /** The cards in the grid. */
    function Visible(): seq<Project>
      reads this
    {
      FilteredProjects(projects, selectedCategory)
    }

    /** While the selection comes from the buttons, the empty-state message
        shows only when there are no projects at all. */
    lemma EmptyStateOnlyWithoutProjects()
      requires Valid()
      ensures ShowsEmptyState(projects, selectedCategory) <==> projects == []
      ensures |Visible()| == 0 <==> projects == []
    {
      ListedCategoryNeverEmpty(projects, selectedCategory);
    }
  }
}

/** The "Portfolio" section of the home page: a fixed list of six projects,
    a fixed row of category buttons, and a dialog for one selected project. */
module Gallery {
  import opened Options
  import CategoryFilter

  datatype GalleryProject = GalleryProject(
    id: nat,
    title: string,
    category: string,
    image: string,
    description: string,
    details: string)

  /** The category buttons, in order. */
  const Categories: seq<string> := ["All", "Branding", "Digital", "Print", "Campaign"]

  const Projects: seq<GalleryProject> := [
    GalleryProject(1, "Urban Skatewear Brand", "Branding", "/urban-skateboard-brand.png",
      "Complete brand identity for an emerging skatewear company, including logo design, packaging, and brand guidelines.",
      "This project involved creating a bold, street-inspired identity that resonates with the skateboarding community while maintaining commercial appeal."),
    GalleryProject(2, "Tech Startup Website", "Digital", "/modern-tech-website.png",
      "Responsive website design for a fintech startup, focusing on user experience and conversion optimization.",
      "Designed a clean, trustworthy interface that simplifies complex financial concepts for everyday users."),
    GalleryProject(3, "Music Festival Campaign", "Campaign", "/vibrant-music-festival-poster.png",
      "Comprehensive visual campaign for a major music festival, including posters, digital assets, and merchandise.",
      "Created an energetic visual system that captured the festival's diverse lineup and urban culture."),
    GalleryProject(4, "Luxury Magazine Layout", "Print", "/luxury-magazine-layout.png",
      "Editorial design for a high-end lifestyle magazine, emphasizing typography and visual hierarchy.",
      "Developed a sophisticated layout system that balances readability with visual impact."),
    GalleryProject(5, "E-commerce Platform", "Digital", "/ecommerce-product-showcase.png",
      "User interface design for a premium e-commerce platform specializing in streetwear and lifestyle products.",
      "Created an immersive shopping experience that reflects the brand's urban aesthetic."),
    GalleryProject(6, "Coffee Brand Identity", "Branding", "/artisanal-coffee-packaging.png",
      "Brand identity and packaging design for an artisanal coffee roastery with focus on sustainability.",
      "Developed a warm, approachable identity that communicates quality and environmental consciousness.")
  ]

  function CategoryOf(p: GalleryProject): string {
    p.category
  }

  /** `filteredProjects` for the selected category. */
  function FilteredProjects(selected: string): seq<GalleryProject> {
    CategoryFilter.Select(Projects, CategoryOf, selected)
  }

  function Ids(ps: seq<GalleryProject>): (ids: seq<nat>)
    ensures |ids| == |ps|
    ensures forall k :: 0 <= k < |ps| ==> ids[k] == ps[k].id
  {
    seq(|ps|, k requires 0 <= k < |ps| => ps[k].id)
  }

  /** `src || "/placeholder.svg"`: an empty image reference falls back to the
      placeholder, any other is used as it is. */
  function ImageSrc(image: string): (src: string)
    ensures src != ""
    ensures image != "" ==> src == image
    ensures image == "" ==> src == "/placeholder.svg"
  {
    if image != "" then image else "/placeholder.svg"
  }

  /** The first button is 'All' and shows all six projects in their order. */
  lemma AllShowsEveryProject()
    ensures Categories[0] == CategoryFilter.All
    ensures FilteredProjects("All") == Projects
    ensures Ids(FilteredProjects("All")) == [1, 2, 3, 4, 5, 6]
  {
  }

  /** The filter for a category, unrolled over the six projects. */
  lemma FilteredIds(c: string)
    requires c != CategoryFilter.All
    ensures FilteredProjects(c) ==
      (if c == "Branding" then [Projects[0]] else []) + (if c == "Digital" then [Projects[1]] else []) +
      (if c == "Campaign" then [Projects[2]] else []) + (if c == "Print" then [Projects[3]] else []) +
      (if c == "Digital" then [Projects[4]] else []) + (if c == "Branding" then [Projects[5]] else [])
  {
    var ps := Projects;
    CategoryFilter.KeepStep(ps[5..], CategoryOf, c);
    assert ps[5..][1..] == [];
    CategoryFilter.KeepStep(ps[4..], CategoryOf, c);
    assert ps[4..][1..] == ps[5..];
    CategoryFilter.KeepStep(ps[3..], CategoryOf, c);
    assert ps[3..][1..] == ps[4..];
    CategoryFilter.KeepStep(ps[2..], CategoryOf, c);
    assert ps[2..][1..] == ps[3..];
    CategoryFilter.KeepStep(ps[1..], CategoryOf, c);
    assert ps[1..][1..] == ps[2..];
    CategoryFilter.KeepStep(ps, CategoryOf, c);
  }

  /** "Digital" shows projects 2 and 5; "Branding" shows 1 and 6; "Print"
      shows 4; "Campaign" shows 3. */
  lemma CategoryExamples()
    ensures Ids(FilteredProjects("Digital")) == [2, 5]
    ensures Ids(FilteredProjects("Branding")) == [1, 6]
    ensures Ids(FilteredProjects("Print")) == [4]
    ensures Ids(FilteredProjects("Campaign")) == [3]
  {
    FilteredIds("Digital");
    FilteredIds("Branding");
    FilteredIds("Print");
    FilteredIds("Campaign");
  }

  /** No button leaves the grid empty. */
  lemma NoCategoryIsEmpty()
    ensures forall c :: c in Categories ==> |FilteredProjects(c)| > 0
  {
    CategoryExamples();
    forall c | c in Categories
      ensures |FilteredProjects(c)| > 0
    {
      assert c == "All" || c == "Branding" || c == "Digital" || c == "Print" || c == "Campaign";
    }
  }

  /** Project ids, the grid's keys, are pairwise distinct. */
  lemma IdsDistinct()
    ensures CategoryFilter.NoDuplicates(Ids(Projects))
  {
    assert Ids(Projects) == [1, 2, 3, 4, 5, 6];
  }

  /** The section's state: the selected category and the project whose
      dialog is open (`selectedProject`, null when none). */
  class GallerySection {
    var selectedCategory: string
    var selectedProject: Option<GalleryProject>

    ghost predicate Valid()
      reads this
    {
      selectedCategory in Categories
    }

    constructor ()
      ensures selectedCategory == "All" && selectedProject == None
      ensures Valid()
    {
      selectedCategory, selectedProject := "All", None;
    }

    function Visible(): seq<GalleryProject>
      reads this
    {
      FilteredProjects(selectedCategory)
    }

    /** `open={!!selectedProject}`. */
    function DialogOpen(): bool
      reads this
    {
      selectedProject.Some?
    }

    /** A click on the category button at position `index`. */
    method SelectCategory(index: nat)
      requires index < |Categories|
      modifies this
      ensures selectedCategory == Categories[index] && Valid()
      ensures selectedProject == old(selectedProject)
    {
      selectedCategory := Categories[index];
    }

    /** Every selection the buttons can reach shows a non-empty grid, so the
        section has no empty state. */
    lemma GridNeverEmpty()
      requires Valid()
      ensures |Visible()| > 0
    {
      NoCategoryIsEmpty();
    }

    /** A click on the card at position `index` of the grid: its project
      replaces whatever was selected before. */
    method CardClick(index: nat)
      requires index < |Visible()|
      modifies this
      ensures selectedProject == Some(old(Visible())[index])
      ensures DialogOpen()
      ensures selectedCategory == old(selectedCategory)
      ensures old(Valid()) ==> Valid()
    {
      selectedProject := Some(Visible()[index]);
    }

    /** `onOpenChange`: whatever the dialog reports, the selection is cleared. */
    method OpenChange(open: bool)
      modifies this
      ensures selectedProject == None && !DialogOpen()
      ensures selectedCategory == old(selectedCategory)
      ensures old(Valid()) ==> Valid()
    {
      selectedProject := None;
    }
  }
}

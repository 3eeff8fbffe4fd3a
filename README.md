# Portfolio site: a Dafny model of its interactive logic

This project models the logic of a single-page portfolio site. The site itself
is written in React and Next.js. The model covers:

- **Work section** (`components/work.tsx`): category buttons, computed as
  "All" followed by the distinct project categories in the order they first
  appear. A project filter driven by the selected category. A "no projects"
  message. Each project card and its detail dialog show optional lines and
  blocks only when the field behind them is present. YouTube watch links are
  rewritten to embed links.
- **Navigation bar** (`components/navigation.tsx`):
  - a "scrolled" flag set past 50 pixels;
  - the active section, found by scanning the sections in entry order for
    the first one that contains the scroll position plus 100 pixels;
  - click dispatch, either to a route or to a smooth scroll;
  - the mobile menu toggle.
- **Gallery section of the home page** (`components/gallery.tsx`): a fixed
  category list and six fixed projects, a filter, a one-slot project dialog
  and a placeholder for a missing image.
- **Standalone gallery page** (`app/gallery/page.tsx`):
  - each row's images tripled into an endless strip;
  - pause on hover, with the row's animation target picked from its
    direction and pause state;
  - a one-image overlay that closes from the backdrop or the close button,
    while clicks in the panel stop propagating;
  - a mounted flag that holds back rendering until the first effect runs.
- **About section** (`components/about.tsx`): a one-way "in view" latch set
  by an intersection observer, and a video source that falls back to a
  second file on a load error.
- **Contact form** (`components/contact.tsx`): a three-field record that
  changes one field at a time, and a submit handler that changes no state.

Browser services are inputs or outputs of the model:

- The page's elements are a map from element id to `(offsetTop, offsetHeight)`.
  A missing key stands for `getElementById` returning null.
- The scroll offset is an integer (fractional offsets are left out, see below).
- An intersection callback is the sequence of its entries' `isIntersecting`
  flags.
- Router pushes and scrolls are returned as `NavAction` values.

Component state (`useState`) becomes the fields of a class. Each event
handler becomes a method with a `modifies` clause. Derived values
(`useMemo`, render conditions) become functions, and lemmas state their
properties.

Modules:

- `Options`: the `Option` datatype.
- `Text`: decimal rendering of numbers, `startsWith`, `substring(1)`,
  `indexOf`, the first-occurrence `replace` and `lastIndexOf`.
- `CategoryFilter`: the category list and the filter, shared by both
  sections that have category buttons.
- One module per component: `Work`, `Navigation`, `Gallery`, `Marquee`
  (`app/gallery/page.tsx`), `About` and `Contact`.

The model follows what the code does, not a stronger variant:

- A paused marquee row is sent to offset 0. It does not freeze at its
  current offset, so on resume it starts the cycle again.
- The active section is the *first* matching section in entry order, not
  the last one.
- When no section matches, the active section keeps its previous value.
  It does not fall back to the first section.

## Model

| member | source | states |
|---|---|---|
| Text.DecimalString | app/gallery/page.tsx:54 | A number renders as a non-empty string of decimal digits, with one digit exactly when the number is below 10 |
| Text.Digit | app/gallery/page.tsx:54 | The digit character for a value below 10 is a digit and reads back as that value |
| Text.DecimalStringValue | app/gallery/page.tsx:54 | The rendering reads back, most significant digit first, as the number rendered, and starts with '0' only for 0 |
| Text.DecimalStringInjective | app/gallery/page.tsx:54 | Different numbers render as different strings |
| Text.DropFirst | components/navigation.tsx:30 | `substring(1)`: empty stays empty, otherwise the first character followed by the result is the input |
| Text.IndexOf | components/work.tsx:274 | Finds the first position where the pattern occurs, with no earlier occurrence; None exactly when it occurs nowhere |
| Text.ReplaceFirst | components/work.tsx:274 | String `replace` with a string pattern: unchanged without a match, otherwise the text before the first match, then the replacement, then the text after the match |
| Text.LastIndexOfAfterSeparator | app/gallery/page.tsx:54 | In a text made of a prefix, a separator and a separator-free suffix, the last separator sits right after the prefix |
| CategoryFilter.Distinct | components/work.tsx:45 | `Array.from(new Set(xs))`: the same members as the input, no duplicates, no longer than the input |
| CategoryFilter.DistinctFollowsFirstAppearance | components/work.tsx:45 | The distinct list keeps the order in which the values first appear in the input |
| CategoryFilter.CategoryList | components/work.tsx:44-47 | The category list starts with "All" |
| CategoryFilter.CategoryListContents | components/work.tsx:45-46 | Every later element is some item's category, every item's category is listed, and the list is duplicate-free exactly when no item is categorised "All" |
| CategoryFilter.CategoryListFirstSeen | components/work.tsx:45-46 | Listed categories appear in the order of their first appearance among the items |
| CategoryFilter.KeepSpec | components/work.tsx:52 | `filter(p => p.category === c)` returns a subsequence of the items. It holds only items of category c, and each of them as many times as in the input |
| CategoryFilter.KeepIsLargest | components/work.tsx:52 | Every subsequence of the items made of category-c items is a subsequence of the filter's result |
| CategoryFilter.SubsequenceOfSameLength | components/work.tsx:52 | A subsequence as long as the sequence is the sequence itself |
| CategoryFilter.KeepIsUnique | components/work.tsx:52 | The filter's result is the only subsequence that contains every category-c item the same number of times as the input and nothing else |
| CategoryFilter.Select | components/work.tsx:50-53 | With "All" the items are returned unchanged; with another category, the filter's result |
| CategoryFilter.SelectEmptyIff | components/work.tsx:50-53 | The selection is empty exactly when there are no items, or when the category is not "All" and no item has it |
| CategoryFilter.ListedCategoryEmptyIff | components/work.tsx:44-53 | Selecting a listed category gives an empty result exactly when there are no items |
| Work.CategoriesShape | components/work.tsx:44-47 | The project category list: "All" first, later buttons are project categories, every project's category has a button, and the buttons are distinct exactly when no project is categorised "All" |
| Work.CategoriesInFirstSeenOrder | components/work.tsx:45-46 | Category buttons follow the order in which the categories first appear among the projects |
| Work.FilterAllIsIdentity | components/work.tsx:51 | Filtering with "All" returns the projects unchanged |
| Work.FilterCategoryKeepsOrder | components/work.tsx:52 | Filtering with another category returns, in order, exactly the projects of that category |
| Work.EmptyStateIff | components/work.tsx:293 | The empty-state message shows exactly when the filtered list is empty, that is, when no project has the selected category (or, for "All", there are no projects) |
| Work.ListedCategoryNeverEmpty | components/work.tsx:115-119 | A category reached through its button never shows the empty-state message unless there are no projects |
| Work.CardLinesOnlyWhenPresent | components/work.tsx:168-177 | The card shows a tagline line or a client line exactly when that field is a non-empty string, and the line carries the field's value |
| Work.DetailBlocksMembers | components/work.tsx:204-281 | The dialog's detail blocks are exactly the overview and the blocks whose condition holds |
| Work.DialogBlocksOnlyWhenPresent | components/work.tsx:204-281 | No details give no blocks. Otherwise the overview comes first, and each optional block is shown exactly when its field is truthy (a gallery needs a non-empty image list) |
| Work.DialogBlockContents | components/work.tsx:249-279 | The video block plays the embed form of the video URL. Gallery tile i shows image i with the alt text "title gallery i+1" |
| Work.EmbedUrlReplacesFirstOnly | components/work.tsx:274 | A URL without "watch?v=" is kept. Otherwise only the first occurrence is replaced by "embed/", making the URL two characters shorter |
| Work.EmbedUrlKeepsSecondOccurrence | components/work.tsx:274 | A second "watch?v=" is left in place |
| Work.WorkSection.constructor | components/work.tsx:38 | The selected category starts as "All" |
| Work.WorkSection.SelectCategory | components/work.tsx:115-119 | A button click sets the selected category to that button's category, which keeps the selection inside the category list |
| Work.WorkSection.EmptyStateOnlyWithoutProjects | components/work.tsx:38-300 | With every reachable selection, the grid is empty and the empty-state message shows exactly when there are no projects |
| Navigation.FirstHit | components/navigation.tsx:33-42 | The first section, in order, whose element exists and contains the probe point; None exactly when no section does |
| Navigation.ScanSections | components/navigation.tsx:33-42 | The loop with `break` finds exactly that first containing section |
| Navigation.ActiveAfterScrollChoice | components/navigation.tsx:30-42 | After a scroll, the active section is the first section containing scrollY + 100. With no such section it keeps its previous value |
| Navigation.ClickActionDispatch | components/navigation.tsx:52-61 | An href starting with "/" is pushed to the router and never scrolled to. Any other href scrolls to the element whose id is the href without its first character, or does nothing when that element is missing |
| Navigation.SectionIdsValue | components/navigation.tsx:9-30 | The probed ids are the seven entry hrefs without their first character |
| Navigation.EntryActions | components/navigation.tsx:9-62 | Only the Gallery entry changes route. Every other entry scrolls to its section when the page has it |
| Navigation.AtMostOneActive | components/navigation.tsx:89-90 | At most one entry is highlighted at a time |
| Navigation.NavigationBar.constructor | components/navigation.tsx:20-22 | Not scrolled, menu closed, active section "home" |
| Navigation.NavigationBar.HandleScroll | components/navigation.tsx:26-43 | The scrolled flag is true exactly past 50 pixels, the active section follows the scan, and the menu is unchanged |
| Navigation.NavigationBar.HandleNavClick | components/navigation.tsx:49-62 | The menu closes, and the returned action is the dispatch for the href |
| Navigation.NavigationBar.ToggleMobileMenu | components/navigation.tsx:124 | The menu button flips the menu and changes nothing else |
| Navigation.NavigationBar.CloseMobileMenu | components/navigation.tsx:172 | The backdrop closes the menu and changes nothing else |
| Gallery.Ids | components/gallery.tsx:12-66 | The ids of a project list, in order |
| Gallery.ImageSrc | components/gallery.tsx:111 | An empty image name falls back to "/placeholder.svg". Any other name is used as given, so the source is never empty |
| Gallery.AllShowsEveryProject | components/gallery.tsx:10-73 | "All" is the first category and shows all six projects in order |
| Gallery.FilteredIds | components/gallery.tsx:12-73 | Filtering by any category other than "All" keeps exactly the projects of that category, in data order |
| Gallery.CategoryExamples | components/gallery.tsx:12-73 | Digital shows projects 2 and 5, Branding 1 and 6, Print 4, Campaign 3 |
| Gallery.NoCategoryIsEmpty | components/gallery.tsx:10-73 | No category button leads to an empty grid |
| Gallery.IdsDistinct | components/gallery.tsx:12-66 | Project ids, used as card keys, are distinct |
| Gallery.GallerySection.constructor | components/gallery.tsx:69-70 | Category "All" and no open project |
| Gallery.GallerySection.SelectCategory | components/gallery.tsx:87-91 | A button click selects its category and leaves the dialog alone |
| Gallery.GallerySection.GridNeverEmpty | components/gallery.tsx:69-101 | With every selection the buttons can reach, the grid is non-empty |
| Gallery.GallerySection.CardClick | components/gallery.tsx:101-106 | A card click opens that card's project in the dialog, keeps the category, and keeps the selected category within the list |
| Gallery.GallerySection.OpenChange | components/gallery.tsx:131 | Any open-change event clears the selected project and closes the dialog, keeping the category within the list |
| Marquee.TripledAt | app/gallery/page.tsx:27 | The strip is three times as long as the row and holds the row in order in each third |
| Marquee.TileKeyDeterminesIndex | app/gallery/page.tsx:54 | A tile key determines its tile's index, whatever the image ids are |
| Marquee.TileKeysDistinct | app/gallery/page.tsx:52-54 | The tile keys of a row are pairwise distinct, even though each image appears three times |
| Marquee.AnimationChoice | app/gallery/page.tsx:38-47 | A running row loops between 0 and one third over 30 seconds, forever. Left rows and right rows run in opposite directions. A paused row goes to offset 0 with no duration and no repeat, whatever its direction |
| Marquee.OverlayClickEffect | app/gallery/page.tsx:81-116 | The backdrop's handler runs only for clicks on the backdrop itself. A backdrop or close-button click clears the selection, and a panel click keeps it |
| Marquee.MarqueeRow.constructor | app/gallery/page.tsx:24-25 | Not paused, no image selected |
| Marquee.MarqueeRow.MouseEnter | app/gallery/page.tsx:33 | Pauses the row and keeps the selection |
| Marquee.MarqueeRow.MouseLeave | app/gallery/page.tsx:34 | Resumes the row and keeps the selection |
| Marquee.MarqueeRow.TileClick | app/gallery/page.tsx:58 | The clicked tile's image replaces any selection and the overlay shows |
| Marquee.MarqueeRow.OverlayClick | app/gallery/page.tsx:81-116 | Runs the reached handlers in bubbling order. Afterwards the overlay stays open exactly when the click landed in the panel |
| Marquee.GalleryPage.constructor | app/gallery/page.tsx:125-137 | The page starts unmounted and shows only the loading placeholder |
| Marquee.GalleryPage.Mount | app/gallery/page.tsx:127-171 | After the effect the page shows one row per gallery row |
| About.ContainerTarget | components/about.tsx:88 | The container's target is "visible" exactly when the section is in view, and "hidden" otherwise |
| About.RevealedIff | components/about.tsx:60-68 | After any run of callbacks the section is in view exactly when it was before or some callback's entry intersected |
| About.RevealedStaysTrue | components/about.tsx:61-68 | Once in view, always in view: no code path resets the latch |
| About.RevealedUnchangedWithoutHit | components/about.tsx:63 | Callbacks without an intersecting entry leave the latch unchanged |
| About.ErrorsSettleOnFallback | components/about.tsx:161-165 | One load error switches the video to "/skate1.mp4", and further errors keep it there |
| About.AboutSection.constructor | components/about.tsx:57-155 | Not in view, hidden target, video source "/trail.mp4" |
| About.AboutSection.OnIntersection | components/about.tsx:62-66 | An intersecting first entry sets the latch, and a non-intersecting one leaves it as it was |
| About.AboutSection.OnVideoError | components/about.tsx:161-165 | The source becomes "/skate1.mp4" |
| Contact.Update | components/contact.tsx:25-30 | The changed field takes the new value and the other two fields keep theirs |
| Contact.FieldsDetermineForm | components/contact.tsx:13-17 | A form is determined by its three fields |
| Contact.UpdateIdempotent | components/contact.tsx:25-30 | The same change applied twice equals it applied once |
| Contact.UpdateOverrides | components/contact.tsx:25-30 | A later change to a field overrides an earlier one |
| Contact.UpdatesCommute | components/contact.tsx:25-30 | Changes to different fields commute |
| Contact.UpdateWithSameValue | components/contact.tsx:25-30 | Writing back a field's current value changes nothing |
| Contact.ContactForm.constructor | components/contact.tsx:13-17 | All three fields start empty |
| Contact.ContactForm.HandleChange | components/contact.tsx:25-30 | Only the named field changes |
| Contact.ContactForm.HandleSubmit | components/contact.tsx:19-23 | Hands over the current form and changes no state |

## Left out

- Animation parameters are not modelled: variants, stagger delays, durations other than the marquee's cycle, springs, scale and opacity. Marquee offsets are the labels `Zero` and `MinusOneThird` rather than percentages.
- Browser and framework services are not modelled; they become inputs and outputs instead:
  - `window.scrollY`;
  - listener registration and cleanup;
  - `IntersectionObserver` and its 0.3 threshold;
  - `scrollIntoView`;
  - `router.push`;
  - `next/image` and `next/link`.
- `About.AboutSection.OnIntersection` requires a non-empty entry list. The callback destructures its first entry, and observers always deliver at least one. Later entries in the same callback are ignored, as in the code.
- `About.AboutSection.OnVideoError` sets a field, whereas the code writes the element's `src` directly. The `<source>` children's own fallback order is browser behaviour and is not modelled.
- The `console.log` calls in the contact submit handler and the video error handler are output only.
- `preventDefault` is not modelled.
- `Contact.ContactForm.HandleChange` takes one of the three field names. The form has only these three inputs, so the code's computed key `[e.target.name]` cannot add a fourth key.
- `selectedProject` in `components/work.tsx` is never read or written. Each card opens its own uncontrolled dialog, so the model has no dialog state for that section.
- Project detail fields the work section never renders are not modelled (`designThinking`, `execution`, `keyFeatures`, `impact`, `lookingAhead`, `approach`).
- The contents of `data.json` and `gallery.json` are not modelled. Projects and gallery rows are arbitrary input sequences.
- The data of `components/gallery.tsx` is part of that file and is modelled in full.
- `Navigation.NavigationBar.HandleScroll` takes `scrollY` as an integer. `offsetTop` and `offsetHeight` are integers in the browser too, but `window.scrollY` is a double and can be fractional under page zoom or on high-density screens. Fractional scroll positions are not modelled: at 50.5 the code already sets the scrolled flag, a state the integer model reaches only from 51.
- The markup-only files are not part of this model: `components/hero.tsx`, `components/services.tsx`, `components/hobbies.tsx`, `components/ui/*` and `app/page.tsx`.
- The CSS keyframes marquee and the icon list in `components/about.tsx` are styling only.
- `Marquee.MarqueeRow` does not model hover magnification of single tiles. It is a style with no state.

/**
 * The portfolio page's scroll-spy: which of the page's sections is
 * highlighted in the navigation for a given vertical scroll position.
 */
module ScrollSpy {
  import opened Options

  /** The section ids, in page order. */
  const Sections: seq<string> := ["hero", "about", "services", "portfolio", "contact"]

  /** How far below the top of the viewport the probed position lies. */
  const Lookahead := 100

  /** The layout the DOM reports for a section element. */
  datatype Box = Box(offsetTop: int, height: int)

  /** The half-open vertical range `[offsetTop, offsetTop + height)` holds `pos`. */
  predicate Contains(b: Box, pos: int) {
    b.offsetTop <= pos < b.offsetTop + b.height
  }

  /** The element with this id exists on the page and its range holds `pos`.
      `elements` plays the part of `document.getElementById`: an id that is
      not a key has no element. */
  predicate Matches(elements: map<string, Box>, id: string, pos: int) {
    id in elements && Contains(elements[id], pos)
  }

  /** The position of the last id in `ids` whose element holds `pos`. */
  function LastMatchIndex(ids: seq<string>, elements: map<string, Box>, pos: int): (r: Option<nat>)
    ensures r.Some? ==> r.value < |ids| && Matches(elements, ids[r.value], pos)
    ensures r.Some? ==> forall j | r.value < j < |ids| :: !Matches(elements, ids[j], pos)
    ensures r.None? <==> forall j | 0 <= j < |ids| :: !Matches(elements, ids[j], pos)
  {
    if ids == [] then None
    else if Matches(elements, ids[|ids| - 1], pos) then Some(|ids| - 1)
    else LastMatchIndex(ids[..|ids| - 1], elements, pos)
  }

  /** The section that is active after one scroll event that probes `pos`,
      starting from `current`. */
  function ActiveAfter(ids: seq<string>, elements: map<string, Box>, pos: int, current: string): string {
    match LastMatchIndex(ids, elements, pos)
    case Some(k) => ids[k]
    case None => current
  }

  /** Scanning one more id: it becomes the active one if its element holds
      the probe, and otherwise the scan so far stands. */
  lemma ActiveAfterStep(ids: seq<string>, i: nat, elements: map<string, Box>, pos: int, current: string)
    requires i < |ids|
    ensures ActiveAfter(ids[..i + 1], elements, pos, current)
            == if Matches(elements, ids[i], pos) then ids[i] else ActiveAfter(ids[..i], elements, pos, current)
  {
  }

  /** The active section is always one of the ids, when it started as one. */
  lemma ActiveStaysASection(ids: seq<string>, elements: map<string, Box>, pos: int, current: string)
    requires current in ids
    ensures ActiveAfter(ids, elements, pos, current) in ids
  {
  }

  /** A probe that hits no section leaves the active section as it was. */
  lemma NoMatchKeepsActive(ids: seq<string>, elements: map<string, Box>, pos: int, current: string)
    requires forall j | 0 <= j < |ids| :: !Matches(elements, ids[j], pos)
    ensures ActiveAfter(ids, elements, pos, current) == current
  {
  }

  /** When several sections hold the probe, the one latest in page order wins. */
  lemma LastMatchWins(ids: seq<string>, elements: map<string, Box>, pos: int, current: string, k: nat)
    requires k < |ids| && Matches(elements, ids[k], pos)
    requires forall j | k < j < |ids| :: !Matches(elements, ids[j], pos)
    ensures ActiveAfter(ids, elements, pos, current) == ids[k]
  {
  }

  /** No two sections' ranges overlap. */
  ghost predicate Disjoint(ids: seq<string>, elements: map<string, Box>) {
    forall i, j, pos | 0 <= i < j < |ids| && Matches(elements, ids[i], pos) :: !Matches(elements, ids[j], pos)
  }

  /** On a layout whose sections do not overlap, the first matching section
      is also the last one, so "first" and "last" pick the same section. */
  lemma DisjointFirstMatchWins(ids: seq<string>, elements: map<string, Box>, pos: int, current: string, k: nat)
    requires Disjoint(ids, elements)
    requires k < |ids| && Matches(elements, ids[k], pos)
    ensures ActiveAfter(ids, elements, pos, current) == ids[k]
  {
    LastMatchWins(ids, elements, pos, current, k);
  }

  /** Hero at [0, 800), about at [800, 1600) and services at [1600, 2400):
      scrolled to 750, the probe at 850 falls in about. */
  lemma AboutExample(elements: map<string, Box>)
    requires elements == map["hero" := Box(0, 800), "about" := Box(800, 800), "services" := Box(1600, 800)]
    ensures ActiveAfter(Sections, elements, 750 + Lookahead, "hero") == "about"
  {
    assert !Matches(elements, Sections[2], 850);
    assert "portfolio" !in elements && "contact" !in elements;
    LastMatchWins(Sections, elements, 850, "hero", 1);
  }
}

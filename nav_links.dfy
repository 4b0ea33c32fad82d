/** Highlighting the navigation link of the section in view
 *  (`updateActiveNavLink`, app.js:293-311).
 *
 *  The probe point is 100 px below the top of the viewport.  The sections are
 *  scanned in document order; every section whose half-open interval
 *  [offsetTop, offsetTop + offsetHeight) holds the probe clears the `active`
 *  class from every nav link and then puts it on the first nav link whose
 *  `href` is `#` followed by the section's id, if there is one.  The nav
 *  links are modelled by their `href`s, in document order, and one `active`
 *  flag each; layout values are whole pixels.
 */
module NavLinks {
  import opened Wrappers

  /** How far below the top of the viewport the probe point lies (app.js:296). */
  const ProbeOffset: int := 100

  /** A `section[id]` element: its `offsetTop`, `offsetHeight` and `id`. */
  datatype Section = Section(top: int, height: int, id: string)

  /** The test of app.js:304: the half-open interval holds `pos`, so a
      section of height 0 or less holds nothing. */
  predicate Contains(s: Section, pos: int)
    ensures Contains(s, pos) ==> s.height > 0 && s.top <= pos
  {
    pos >= s.top && pos < s.top + s.height
  }

  /** The `href` that links to a section (app.js:302). */
  function Anchor(id: string): (a: string)
    ensures |a| == |id| + 1 && a[0] == '#' && a[1..] == id
  {
    "#" + id
  }

  /** `document.querySelector('.nav-link[href="#id"]')`: the first nav link,
      in document order, whose `href` is `target`. */
  function FirstLinkTo(hrefs: seq<string>, target: string): (r: Option<nat>)
    ensures r.Some? ==> r.value < |hrefs| && hrefs[r.value] == target
    ensures r.Some? ==> forall k :: 0 <= k < r.value ==> hrefs[k] != target
    ensures r.None? <==> target !in hrefs
  {
    if hrefs == [] then None
    else if hrefs[0] == target then Some(0)
    else match FirstLinkTo(hrefs[1..], target)
      case None => None
      case Some(k) => Some(k + 1)
  }

  /** The last section, in document order, that contains `pos`. */
  function LastContaining(sections: seq<Section>, pos: int): (r: Option<nat>)
    ensures r.Some? ==> r.value < |sections| && Contains(sections[r.value], pos)
    ensures r.Some? ==> forall k :: r.value < k < |sections| ==> !Contains(sections[k], pos)
    ensures r.None? ==> forall k :: 0 <= k < |sections| ==> !Contains(sections[k], pos)
  {
    if sections == [] then None
    else
      var last := |sections| - 1;
      if Contains(sections[last], pos) then Some(last)
      else LastContaining(sections[..last], pos)
  }

  /** The flags after a matching section: every link cleared, then the link
      found for `id` set (app.js:305-308). */
  function OnlyActive(hrefs: seq<string>, id: string): (r: seq<bool>)
    ensures |r| == |hrefs|
    ensures forall k, l :: 0 <= k < l < |r| && r[k] ==> !r[l]
    ensures (exists k :: 0 <= k < |r| && r[k]) <==> Anchor(id) in hrefs
    ensures forall k :: 0 <= k < |r| && r[k] ==> hrefs[k] == Anchor(id)
  {
    var found := FirstLinkTo(hrefs, Anchor(id));
    var r := seq(|hrefs|, k requires 0 <= k < |hrefs| => found == Some(k));
    assert found.Some? ==> r[found.value];
    r
  }

  /** The flags after the scan has visited `sections[..i]` (app.js:298-310). */
  function HighlightPrefix(hrefs: seq<string>, active: seq<bool>, sections: seq<Section>,
                           pos: int, i: nat): (r: seq<bool>)
    requires |active| == |hrefs| && i <= |sections|
    ensures |r| == |hrefs|
    ensures (forall k :: 0 <= k < i ==> !Contains(sections[k], pos)) ==> r == active
    ensures (exists k :: 0 <= k < i && Contains(sections[k], pos)) ==>
      exists m :: 0 <= m < i && Contains(sections[m], pos) && r == OnlyActive(hrefs, sections[m].id)
    decreases i
  {
    if i == 0 then active
    else if Contains(sections[i - 1], pos) then OnlyActive(hrefs, sections[i - 1].id)
    else HighlightPrefix(hrefs, active, sections, pos, i - 1)
  }

  /** The flags after a whole scan. */
  function Highlight(hrefs: seq<string>, active: seq<bool>, sections: seq<Section>,
                     pos: int): (r: seq<bool>)
    requires |active| == |hrefs|
    ensures |r| == |hrefs|
    ensures (forall k :: 0 <= k < |sections| ==> !Contains(sections[k], pos)) ==> r == active
    ensures (exists k :: 0 <= k < |sections| && Contains(sections[k], pos)) ==>
      exists m :: 0 <= m < |sections| && Contains(sections[m], pos) && r == OnlyActive(hrefs, sections[m].id)
  {
    HighlightPrefix(hrefs, active, sections, pos, |sections|)
  }

  /** The scan so far leaves the flags as the last matching section visited
      decides, or untouched when none matched. */
  lemma {:induction false} HighlightPrefixIsLastMatch(hrefs: seq<string>, active: seq<bool>,
                                                     sections: seq<Section>, pos: int, i: nat)
    requires |active| == |hrefs| && i <= |sections|
    ensures HighlightPrefix(hrefs, active, sections, pos, i) ==
      match LastContaining(sections[..i], pos)
      case None => active
      case Some(m) => OnlyActive(hrefs, sections[m].id)
    decreases i
  {
    if i > 0 {
      assert sections[..i][..i - 1] == sections[..i - 1];
      HighlightPrefixIsLastMatch(hrefs, active, sections, pos, i - 1);
    }
  }

  /** After a scan: if some section contains the probe, exactly the link of
      the last such section is active, and no link at all when that section
      has none; if no section contains it, no flag changes (app.js:296-309). */
  lemma HighlightResult(hrefs: seq<string>, active: seq<bool>, sections: seq<Section>, pos: int)
    requires |active| == |hrefs|
    ensures var r := Highlight(hrefs, active, sections, pos);
      match LastContaining(sections, pos)
      case None => r == active
      case Some(m) =>
        match FirstLinkTo(hrefs, Anchor(sections[m].id))
        case None => forall k :: 0 <= k < |r| ==> !r[k]
        case Some(l) => forall k :: 0 <= k < |r| ==> (r[k] <==> k == l)
  {
    HighlightPrefixIsLastMatch(hrefs, active, sections, pos, |sections|);
    assert sections[..|sections|] == sections;
  }

  /** The nav links of the page (`navLinks`, app.js:4) with their `active`
      classes. */
  class NavMenu {
    const hrefs: seq<string>
    const active: array<bool>

    ghost predicate Valid()
      reads this
    {
      active.Length == |hrefs|
    }

    constructor (hrefs: seq<string>, active: seq<bool>)
      requires |active| == |hrefs|
      ensures Valid() && this.hrefs == hrefs && this.active[..] == active
      ensures fresh(this.active)
    {
      this.hrefs := hrefs;
      this.active := new bool[|hrefs|](k requires 0 <= k < |hrefs| => active[k]);
    }

    /** `updateActiveNavLink` with `window.scrollY == scrollY` and the page's
        `section[id]` elements in document order (app.js:294-311). */
    method UpdateActiveNavLink(sections: seq<Section>, scrollY: int)
      requires Valid()
      modifies active
      ensures active[..] == Highlight(hrefs, old(active[..]), sections, scrollY + ProbeOffset)
    {
      var scrollPos := scrollY + ProbeOffset;
      for i := 0 to |sections|
        invariant active[..] == HighlightPrefix(hrefs, old(active[..]), sections, scrollPos, i)
      {
        var section := sections[i];
        var navLink := FirstLinkTo(hrefs, Anchor(section.id));
        if scrollPos >= section.top && scrollPos < section.top + section.height {
          for j := 0 to active.Length
            invariant forall k :: 0 <= k < j ==> !active[k]
          {
            active[j] := false;
          }
          if navLink.Some? {
            active[navLink.value] := true;
          }
          assert active[..] == OnlyActive(hrefs, section.id);
        }
      }
    }
  }
}

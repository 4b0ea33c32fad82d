/** Scroll-triggered reveal (`initScrollAnimations`, app.js:385-418).
 *
 *  Every animated element is first hidden (opacity 0, shifted 30 px down) and
 *  observed.  The observer's callback receives batches of entries; for each
 *  entry that is intersecting it shows the element (opacity 1, no shift) and
 *  adds the class `animated`.  Nothing ever stops observing an element, so a
 *  later entry for a shown element simply writes the same values again, and
 *  nothing but the initialisation writes opacity 0.  Whether an entry is
 *  intersecting is the browser's decision (threshold 0.1, bottom margin
 *  -50 px) and arrives as a boolean.
 */
module ScrollReveal {

  /** An element of the page, as an opaque handle. */
  type ElementId = nat

  /** The two inline style properties the reveal code writes: `opacity`, and
      the `translateY` of `transform`, in px. */
  datatype Style = Style(opacity: int, translateY: int)

  /** `opacity: 0; transform: translateY(30px)` (app.js:413-414). */
  const Hidden := Style(0, 30)
  /** `opacity: 1; transform: translateY(0)` (app.js:395-396). */
  const Shown := Style(1, 0)

  /** An `IntersectionObserverEntry`: its target and `isIntersecting`. */
  datatype Entry = Entry(target: ElementId, isIntersecting: bool)

  /** What the reveal code reads and writes: inline styles by element, and the
      elements whose class list holds `animated`. */
  datatype Page = Page(styles: map<ElementId, Style>, animated: set<ElementId>)

  /** Shown and marked `animated`. */
  predicate Revealed(p: Page, e: ElementId)
  {
    e in p.styles && p.styles[e] == Shown && e in p.animated
  }

  /** The initial styles of `elements` set in document order (app.js:412-415). */
  function HideAll(styles: map<ElementId, Style>, elements: seq<ElementId>): (r: map<ElementId, Style>)
    ensures styles.Keys <= r.Keys
    ensures forall k :: 0 <= k < |elements| ==> elements[k] in r && r[elements[k]] == Hidden
    decreases |elements|
  {
    if elements == [] then styles
    else HideAll(styles, elements[..|elements| - 1])[elements[|elements| - 1] := Hidden]
  }

  /** The callback's work for one entry (app.js:394-398). */
  function ApplyEntry(p: Page, entry: Entry): (r: Page)
    ensures entry.isIntersecting ==> Revealed(r, entry.target)
    ensures !entry.isIntersecting ==> r == p
  {
    if entry.isIntersecting then
      Page(p.styles[entry.target := Shown], p.animated + {entry.target})
    else p
  }

  /** The callback's work for a batch of entries, in order (app.js:393-399). */
  function ApplyEntries(p: Page, entries: seq<Entry>): (r: Page)
    ensures p.styles.Keys <= r.styles.Keys && p.animated <= r.animated
    ensures forall k :: 0 <= k < |entries| && entries[k].isIntersecting ==> Revealed(r, entries[k].target)
    decreases |entries|
  {
    if entries == [] then p
    else ApplyEntry(ApplyEntries(p, entries[..|entries| - 1]), entries[|entries| - 1])
  }

  /** The targets of the intersecting entries of a batch. */
  function IntersectingTargets(entries: seq<Entry>): set<ElementId>
  {
    set k | 0 <= k < |entries| && entries[k].isIntersecting :: entries[k].target
  }

  /** Initialisation hides every listed element and leaves every other
      element's styles as they were (app.js:412-417). */
  lemma {:induction false} HideAllEffect(styles: map<ElementId, Style>, elements: seq<ElementId>)
    ensures HideAll(styles, elements).Keys == styles.Keys + set k | 0 <= k < |elements| :: elements[k]
    ensures forall k :: 0 <= k < |elements| ==> HideAll(styles, elements)[elements[k]] == Hidden
    ensures forall e :: e in styles && e !in elements ==> HideAll(styles, elements)[e] == styles[e]
    decreases |elements|
  {
    if elements != [] {
      var n := |elements| - 1;
      var front := elements[..n];
      HideAllEffect(styles, front);
      assert forall k :: 0 <= k < n ==> front[k] == elements[k];
      assert forall e :: e in elements && e != elements[n] ==> e in front;
      assert (set k | 0 <= k < |elements| :: elements[k]) ==
             (set k | 0 <= k < n :: front[k]) + {elements[n]};
    }
  }

  /** The effect of a batch: the intersecting targets are revealed, every
      other element keeps its styles and class (app.js:393-399). */
  lemma {:induction false} ApplyEntriesEffect(p: Page, entries: seq<Entry>)
    ensures var r := ApplyEntries(p, entries);
      && r.styles.Keys == p.styles.Keys + IntersectingTargets(entries)
      && (forall e :: e in IntersectingTargets(entries) ==> r.styles[e] == Shown)
      && (forall e :: e in p.styles && e !in IntersectingTargets(entries) ==> r.styles[e] == p.styles[e])
      && r.animated == p.animated + IntersectingTargets(entries)
    decreases |entries|
  {
    if entries != [] {
      var n := |entries| - 1;
      var front := entries[..n];
      ApplyEntriesEffect(p, front);
      assert forall k :: 0 <= k < n ==> front[k] == entries[k];
      assert IntersectingTargets(entries) ==
        IntersectingTargets(front) + (if entries[n].isIntersecting then {entries[n].target} else {});
    }
  }

  /** An intersecting entry for an element already revealed writes the same
      values again and so changes nothing (app.js:394-398). */
  lemma RevealAgainNoOp(p: Page, e: ElementId)
    requires Revealed(p, e)
    ensures ApplyEntry(p, Entry(e, true)) == p
  {
    assert p.styles[e := Shown] == p.styles;
  }

  /** Delivering the same batch again changes nothing (app.js:393-399). */
  lemma ApplyEntriesIdempotent(p: Page, entries: seq<Entry>)
    ensures ApplyEntries(ApplyEntries(p, entries), entries) == ApplyEntries(p, entries)
  {
    var once := ApplyEntries(p, entries);
    var twice := ApplyEntries(once, entries);
    ApplyEntriesEffect(p, entries);
    ApplyEntriesEffect(once, entries);
    assert twice.styles == once.styles;
  }

  /** No callback hides an element again: a revealed element stays revealed
      whatever entries arrive (app.js:393-399). */
  lemma ApplyEntriesKeepsRevealed(p: Page, entries: seq<Entry>, e: ElementId)
    requires Revealed(p, e)
    ensures Revealed(ApplyEntries(p, entries), e)
  {
    ApplyEntriesEffect(p, entries);
  }

  /** The observer and the page state it drives. */
  class RevealObserver {
    var styles: map<ElementId, Style>
    var animated: set<ElementId>
    /** elements passed to `observer.observe`; none is ever unobserved */
    var observed: set<ElementId>

    function State(): Page
      reads this
    {
      Page(styles, animated)
    }

    constructor (styles: map<ElementId, Style>, animated: set<ElementId>)
      ensures State() == Page(styles, animated) && observed == {}
    {
      this.styles := styles;
      this.animated := animated;
      observed := {};
    }

    /** Hide and observe every element matching the reveal selectors, in
        document order (app.js:403-417). */
    method InitScrollAnimations(elements: seq<ElementId>)
      modifies this
      ensures styles == HideAll(old(styles), elements)
      ensures forall k :: 0 <= k < |elements| ==> elements[k] in styles && styles[elements[k]] == Hidden
      ensures animated == old(animated)
      ensures observed == old(observed) + set k | 0 <= k < |elements| :: elements[k]
    {
      for i := 0 to |elements|
        invariant styles == HideAll(old(styles), elements[..i])
        invariant animated == old(animated)
        invariant observed == old(observed) + set k | 0 <= k < i :: elements[k]
      {
        assert elements[..i + 1][..i] == elements[..i];
        styles := styles[elements[i] := Hidden];
        observed := observed + {elements[i]};
      }
      assert elements[..|elements|] == elements;
      HideAllEffect(old(styles), elements);
    }

    /** The observer's callback on a batch of entries (app.js:392-400). */
    method OnIntersection(entries: seq<Entry>)
      modifies this
      ensures State() == ApplyEntries(old(State()), entries)
      ensures forall e :: Revealed(old(State()), e) ==> Revealed(State(), e)
      ensures observed == old(observed)
    {
      for i := 0 to |entries|
        invariant State() == ApplyEntries(old(State()), entries[..i])
        invariant observed == old(observed)
      {
        assert entries[..i + 1][..i] == entries[..i];
        var entry := entries[i];
        if entry.isIntersecting {
          styles := styles[entry.target := Shown];
          animated := animated + {entry.target};
        }
      }
      assert entries[..|entries|] == entries;
      forall e | Revealed(old(State()), e) ensures Revealed(State(), e) {
        ApplyEntriesKeepsRevealed(old(State()), entries, e);
      }
    }
  }
}

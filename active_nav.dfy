/** `updateActiveNav`: on every scroll event (and once at start-up) the navigation
    link of the section under the scroll position, biased 150 pixels down, is
    marked active. The sections are visited in document order and every match
    rewrites all the links' flags, so the last matching section wins; when no
    section matches, the flags stay as they were. */
module ActiveNav {
  import opened Optional

  /** How far below the top of the viewport the section test looks. */
  const Bias: real := 150.0

  /** A `section[id]` element: its top offset, its height and its id. */
  datatype Section = Section(top: int, height: int, id: string)

  /** The half-open test `top <= position < top + height`. */
  predicate Covers(s: Section, position: real) {
    s.top as real <= position < (s.top + s.height) as real
  }

  /** The index of the last section that covers `position`, if any. */
  function LastCovering(sections: seq<Section>, position: real): (k: Option<nat>)
    ensures k.Some? ==> k.value < |sections| && Covers(sections[k.value], position)
    ensures k.Some? ==> forall j :: k.value < j < |sections| ==> !Covers(sections[j], position)
    ensures k.None? ==> forall j :: 0 <= j < |sections| ==> !Covers(sections[j], position)
  {
    if sections == [] then None
    else if Covers(sections[|sections| - 1], position) then Some(|sections| - 1)
    else LastCovering(sections[..|sections| - 1], position)
  }

  /** The link whose `href` is `"#" + id` is active, no other. With distinct
      hrefs that marks at most one link, and one when some link points at `id`. */
  function MarkOnly(hrefs: seq<string>, id: string): (flags: seq<bool>)
    ensures |flags| == |hrefs|
    ensures (forall a, b :: 0 <= a < b < |hrefs| ==> hrefs[a] != hrefs[b]) ==>
              forall a, b :: 0 <= a < b < |flags| ==> !(flags[a] && flags[b])
    ensures "#" + id in hrefs ==> true in flags
  {
    var flags := seq(|hrefs|, j requires 0 <= j < |hrefs| => hrefs[j] == "#" + id);
    if "#" + id in hrefs then
      var k :| 0 <= k < |hrefs| && hrefs[k] == "#" + id;
      assert flags[k];
      flags
    else
      flags
  }

  /** The flags after one update at `position`: those of the last covering
      section's link, or the flags as they were when no section covers it. */
  function ActiveAfter(hrefs: seq<string>, flags: seq<bool>, sections: seq<Section>, position: real): seq<bool> {
    match LastCovering(sections, position)
    case None => flags
    case Some(k) => MarkOnly(hrefs, sections[k].id)
  }

  /** Updating twice at the same position is updating once. */
  lemma ActiveAfterIdempotent(hrefs: seq<string>, flags: seq<bool>, sections: seq<Section>, position: real)
    ensures var once := ActiveAfter(hrefs, flags, sections, position);
            ActiveAfter(hrefs, once, sections, position) == once
  {
  }

  /** With distinct hrefs, at most one link is active after an update at a
      position some section covers. */
  lemma AtMostOneActive(hrefs: seq<string>, flags: seq<bool>, sections: seq<Section>, position: real, i: nat, j: nat)
    requires forall a, b :: 0 <= a < b < |hrefs| ==> hrefs[a] != hrefs[b]
    requires LastCovering(sections, position).Some?
    requires i < j < |hrefs|
    ensures var after := ActiveAfter(hrefs, flags, sections, position);
            !(after[i] && after[j])
  {
  }

  /** A section that covers the position, with nothing after it that does,
      decides the active link, whatever came before it. */
  lemma LaterSectionWins(hrefs: seq<string>, flags: seq<bool>, sections: seq<Section>, position: real, k: nat)
    requires k < |sections| && Covers(sections[k], position)
    requires forall j :: k < j < |sections| ==> !Covers(sections[j], position)
    ensures ActiveAfter(hrefs, flags, sections, position) == MarkOnly(hrefs, sections[k].id)
  {
  }

  /** The navigation links: their fixed `href`s and their "active" flags. */
  class NavLinks {
    const hrefs: seq<string>
    const active: array<bool>

    ghost predicate Valid()
      reads this
    {
      active.Length == |hrefs|
    }

    /** The links as the markup gives them, each with its initial "active" class. */
    constructor (hrefs: seq<string>, initial: seq<bool>)
      requires |initial| == |hrefs|
      ensures Valid() && this.hrefs == hrefs && fresh(active)
      ensures active[..] == initial
    {
      this.hrefs := hrefs;
      active := new bool[|hrefs|](j requires 0 <= j < |initial| => initial[j]);
    }

    /** `updateActiveNav` for the scroll offset `pageYOffset`. */
    method UpdateActiveNav(sections: seq<Section>, pageYOffset: real)
      requires Valid()
      modifies active
      ensures active[..] == ActiveAfter(hrefs, old(active[..]), sections, pageYOffset + Bias)
      ensures LastCovering(sections, pageYOffset + Bias).None? ==> active[..] == old(active[..])
      ensures LastCovering(sections, pageYOffset + Bias).Some? ==>
                forall j :: 0 <= j < active.Length ==>
                  (active[j] <==> hrefs[j] == "#" + sections[LastCovering(sections, pageYOffset + Bias).value].id)
    {
      var position := pageYOffset + Bias;
      var i := 0;
      while i < |sections|
        invariant 0 <= i <= |sections|
        invariant active[..] == ActiveAfter(hrefs, old(active[..]), sections[..i], position)
      {
        var section := sections[i];
        if section.top as real <= position && position < (section.top + section.height) as real {
          var target := "#" + section.id;
          var j := 0;
          while j < active.Length
            invariant 0 <= j <= active.Length
            invariant forall m :: 0 <= m < j ==> (active[m] <==> hrefs[m] == target)
          {
            active[j] := false;
            if hrefs[j] == target {
              active[j] := true;
            }
            j := j + 1;
          }
          assert LastCovering(sections[..i + 1], position) == Some(i);
          assert active[..] == MarkOnly(hrefs, section.id);
        } else {
          assert sections[..i + 1][..i] == sections[..i];
        }
        i := i + 1;
      }
      assert sections[..i] == sections;
    }
  }
}

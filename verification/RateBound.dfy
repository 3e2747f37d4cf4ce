/** What any limiter that counts per window guarantees over arbitrary intervals. */
module RateBound {

  /** An admitted request: its time, and the start of the window it was counted in. */
  datatype Grant = Grant(at: int, anchor: int)

  /** Grants in the half-open interval [lo, hi). */
  function CountIn(grants: seq<Grant>, lo: int, hi: int): nat {
    if grants == [] then 0
    else
      CountIn(grants[..|grants| - 1], lo, hi)
      + if lo <= grants[|grants| - 1].at < hi then 1 else 0
  }

  function CountAnchored(grants: seq<Grant>, anchor: int): nat {
    if grants == [] then 0
    else
      CountAnchored(grants[..|grants| - 1], anchor)
      + if grants[|grants| - 1].anchor == anchor then 1 else 0
  }

  lemma CountAnchoredOneMore(grants: seq<Grant>, g: Grant, anchor: int)
    ensures CountAnchored(grants + [g], anchor) == CountAnchored(grants, anchor) + if g.anchor == anchor then 1 else 0
  {
    assert (grants + [g])[..|grants|] == grants;
  }

  /** Every grant lies in its window, and distinct windows do not overlap. */
  ghost predicate Windowed(grants: seq<Grant>, width: int) {
    && (forall i | 0 <= i < |grants| :: grants[i].anchor <= grants[i].at < grants[i].anchor + width)
    && (forall i, j | 0 <= i < |grants| && 0 <= j < |grants| && grants[i].anchor < grants[j].anchor ::
          grants[i].anchor + width <= grants[j].anchor)
  }

  lemma {:induction false} CountedByTwoWindows(grants: seq<Grant>, lo: int, hi: int, a: int, b: int)
    requires forall i | 0 <= i < |grants| && lo <= grants[i].at < hi :: grants[i].anchor == a || grants[i].anchor == b
    ensures CountIn(grants, lo, hi) <= CountAnchored(grants, a) + CountAnchored(grants, b)
  {
    if grants != [] {
      CountedByTwoWindows(grants[..|grants| - 1], lo, hi, a, b);
    }
  }

  /** The windows that meet an interval of one window length number at most two. */
  lemma TwoWindowsMeet(grants: seq<Grant>, width: int, lo: int) returns (a: int, b: int)
    requires Windowed(grants, width)
    ensures forall i | 0 <= i < |grants| && lo <= grants[i].at < lo + width ::
              grants[i].anchor == a || grants[i].anchor == b
  {
    a, b := 0, 0;
    if i :| 0 <= i < |grants| && lo <= grants[i].at < lo + width {
      a, b := grants[i].anchor, grants[i].anchor;
      if j :| 0 <= j < |grants| && lo <= grants[j].at < lo + width && grants[j].anchor != a {
        b := grants[j].anchor;
      }
    }
  }

  /** With at most `limit` grants per window, any interval of one window length holds at most twice that. */
  lemma TwiceTheLimit(grants: seq<Grant>, width: int, limit: nat, lo: int)
    requires Windowed(grants, width)
    requires forall anchor :: CountAnchored(grants, anchor) <= limit
    ensures CountIn(grants, lo, lo + width) <= 2 * limit
  {
    var a, b := TwoWindowsMeet(grants, width, lo);
    CountedByTwoWindows(grants, lo, lo + width, a, b);
  }
}

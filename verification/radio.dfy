/**
 A group of radio buttons, each on (`true`) or off (`false`), with the two
 things the form does to one: clicking a radio, and reading back which radio
 is on by a first-match scan.
 */
module Radio {
  import opened Settings

  /** No radio of the group is on. */
  predicate NoneOn(g: seq<bool>) {
    forall j :: 0 <= j < |g| ==> !g[j]
  }

  /** No two radios of the group are on. */
  predicate AtMostOneOn(g: seq<bool>) {
    forall i, j :: 0 <= i < |g| && 0 <= j < |g| && g[i] && g[j] ==> i == j
  }

  /** Exactly one radio of the group, the `k`-th, is on. */
  predicate OnlyOn(g: seq<bool>, k: nat) {
    k < |g| && g[k] && forall j :: 0 <= j < |g| && g[j] ==> j == k
  }

  /** Exactly one radio of the group is on. */
  ghost predicate ExactlyOneOn(g: seq<bool>) {
    exists k: nat :: OnlyOn(g, k)
  }

  /** The group of `n` radios in which only the `k`-th is on; all are off
      when `k` is not a radio of the group. */
  function Selected(n: nat, k: nat): (r: seq<bool>)
    ensures |r| == n
    ensures k < n ==> OnlyOn(r, k)
    ensures k >= n ==> NoneOn(r)
  {
    seq(n, j => j == k)
  }

  /** A radio of the group is clicked: every radio of the group is switched
      off, then the sender is switched on. A sender that is not one of the
      group's radios (`sender >= |g|`) leaves the whole group off. */
  method Click(g: seq<bool>, sender: nat) returns (r: seq<bool>)
    ensures |r| == |g|
    ensures sender < |g| ==> OnlyOn(r, sender)
    ensures sender >= |g| ==> NoneOn(r)
    ensures r == Selected(|g|, sender)
  {
    r := g;
    var i := 0;
    while i < |r|
      invariant 0 <= i <= |r| == |g|
      invariant forall j :: 0 <= j < i ==> !r[j]
    {
      r := r[i := false];
      i := i + 1;
    }
    if sender < |r| {
      r := r[sender := true];
    }
    assert forall j :: 0 <= j < |r| ==> r[j] == Selected(|g|, sender)[j];
  }

  /** The first radio of the group that is on, scanning in group order: the
      case order of a `switch` on the "on" state. */
  function FirstOn(g: seq<bool>): (r: Option<nat>)
    ensures r.None? <==> NoneOn(g)
    ensures r.Some? ==> r.value < |g| && g[r.value]
    ensures r.Some? ==> forall j :: 0 <= j < r.value ==> !g[j]
  {
    if |g| == 0 then None
    else if g[0] then Some(0)
    else match FirstOn(g[1..])
      case None => None
      case Some(k) => Some(k + 1)
  }

  /** When only the `k`-th radio is on, the first-match scan finds it. */
  lemma FirstOnOnlyOn(g: seq<bool>, k: nat)
    requires OnlyOn(g, k)
    ensures FirstOn(g) == Some(k)
  {
  }

  /** Clicking a radio of the group and reading the group back yields the
      clicked radio. */
  lemma FirstOnSelected(n: nat, k: nat)
    requires k < n
    ensures FirstOn(Selected(n, k)) == Some(k)
  {
  }
}

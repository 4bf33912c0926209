/** One step of an interleaved multiplication: every scalar contributes its digit of one window. */
module Windows {
  import opened Arith
  import opened Groups
  import opened Wnaf

  /** The factor of point j in window i; the skew is paid back in window 0. */
  ghost function Share(ds: seq<seq<int>>, skews: seq<int>, i: nat): (c: seq<int>)
    requires |skews| == |ds| && (forall j :: 0 <= j < |ds| ==> i < |ds[j]|)
    ensures |c| == |ds|
  {
    seq(|ds|, j requires 0 <= j < |ds| => ds[j][i] - (if i == 0 then skews[j] else 0))
  }

  /** What the windows from i upwards contribute to the factor of point j. */
  ghost function Above(w: nat, ds: seq<seq<int>>, skews: seq<int>, i: nat): (c: seq<int>)
    requires |skews| == |ds| && (forall j :: 0 <= j < |ds| ==> i <= |ds[j]|)
    ensures |c| == |ds|
  {
    seq(|ds|, j requires 0 <= j < |ds| => Horner(w, ds[j], i) - (if i == 0 then skews[j] else 0))
  }

  lemma WindowJoins<P(!new)>(g: Group<P>, w: nat, ds: seq<seq<int>>, skews: seq<int>, i: nat, qs: seq<P>)
    requires g.Lawful() && |skews| == |ds| == |qs| && (forall j :: 0 <= j < |ds| ==> i < |ds[j]|)
    ensures g.Dot(|qs|, Above(w, ds, skews, i), qs)
         == g.add(g.Mul(Pow2(w), g.Dot(|qs|, Above(w, ds, skews, i + 1), qs)), g.Dot(|qs|, Share(ds, skews, i), qs))
  {
    hide Group.Lawful, Group.Mul, Group.Dot, Pow2;
    var up := Above(w, ds, skews, i + 1);
    var scaled := seq(|ds|, j requires 0 <= j < |ds| => Pow2(w) * up[j]);
    g.DotScale(Pow2(w), |qs|, up, scaled, qs);
    g.DotAdd(|qs|, scaled, Share(ds, skews, i), Above(w, ds, skews, i), qs);
  }
}

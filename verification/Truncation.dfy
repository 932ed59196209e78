/** Cutting a reply to the size a UDP client accepts. Sizes come from the message library, which is
    an arbitrary function here that grows with the sections. */
module Truncation {
  import opened DnsModel

  /** The wire size of a reply with this question and these answer, authority and additional
      sections. */
  type Size = (seq<RR>, seq<RR>, seq<RR>) -> nat

  /** Dropping answers from the end, or emptying another section, never makes a reply larger. */
  ghost predicate Grows(size: Size) {
    && (forall a, b, ns, extra :: a <= b ==> size(a, ns, extra) <= size(b, ns, extra))
    && (forall a, ns, extra :: size(a, [], extra) <= size(a, ns, extra))
    && (forall a, ns, extra :: size(a, ns, []) <= size(a, ns, extra))
  }

  class Reply {
    var truncated: bool
    var answer: seq<RR>
    var ns: seq<RR>
    var extra: seq<RR>

    constructor (answer: seq<RR>, ns: seq<RR>, extra: seq<RR>)
      ensures !truncated && this.answer == answer && this.ns == ns && this.extra == extra
    {
      truncated := false;
      this.answer, this.ns, this.extra := answer, ns, extra;
    }

    function Len(size: Size): nat
      reads this
    {
      size(answer, ns, extra)
    }

    /** A reply that fits is left alone. Any other is marked, loses its authority section, and keeps
        the longest run of leading answers that fits beside the other two sections as they were; the
        additional section stays unless it does not fit even without answers. The result fits
        exactly when a reply with nothing but the question does. */
    method Truncate(size: Size, maxSize: nat)
      requires Grows(size)
      modifies this
      ensures old(Len(size)) <= maxSize ==>
                answer == old(answer) && ns == old(ns) && extra == old(extra) && truncated == old(truncated)
      ensures old(Len(size)) > maxSize ==> truncated && ns == []
      ensures old(Len(size)) > maxSize ==>
                && answer <= old(answer)
                && (forall k :: |answer| < k <= |old(answer)| ==> size(old(answer)[..k], old(ns), old(extra)) > maxSize)
                && (answer == [] || size(answer, old(ns), old(extra)) <= maxSize)
                && (extra == if size([], old(ns), old(extra)) <= maxSize || answer != [] then old(extra) else [])
      ensures Len(size) <= maxSize <==> size([], [], []) <= maxSize
    {
      if Len(size) <= maxSize {
        return;
      }
      truncated := true;
      while |answer| > 0 && Len(size) > maxSize
        invariant answer <= old(answer) && ns == old(ns) && extra == old(extra) && truncated
        invariant forall k :: |answer| < k <= |old(answer)| ==> size(old(answer)[..k], ns, extra) > maxSize
        invariant old(answer)[..|answer|] == answer
      {
        answer := answer[..|answer| - 1];
      }
      if Len(size) > maxSize {
        extra := [];
      }
      if Len(size) > maxSize {
        answer := [];
      }
      ns := [];
    }
  }
}

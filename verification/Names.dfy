/** Domain names as the resolver sees them: sequences of non-empty labels, most specific label
    first, with the root as the empty sequence. `Text` is the fully qualified presentation form,
    which is what the Go code uses for cache keys and for its string comparisons. */
module Names {

  datatype Option<+T> = None | Some(value: T)

  type Label = s: string | |s| > 0 && '.' !in s witness "a"

  type Name = seq<Label>

  function Dotted(n: Name): string {
    if n == [] then "" else n[0] + "." + Dotted(n[1..])
  }

  function Text(n: Name): string {
    if n == [] then "." else Dotted(n)
  }

  function FoldChar(c: char): char {
    if 'A' <= c <= 'Z' then (c as int + 32) as char else c
  }

  /** ASCII case-insensitive equality of labels. */
  predicate SameLabel(a: Label, b: Label) {
    |a| == |b| && forall i :: 0 <= i < |a| ==> FoldChar(a[i]) == FoldChar(b[i])
  }

  predicate SameName(a: Name, b: Name) {
    |a| == |b| && forall i :: 0 <= i < |a| ==> SameLabel(a[i], b[i])
  }

  /** The last `k` labels of a name. */
  function Ancestor(n: Name, k: nat): Name
    requires k <= |n|
  {
    n[|n| - k..]
  }

  /** `dns.IsSubDomain(parent, child)`: the labels of `parent` end `child`, whatever their case. */
  predicate IsSubDomain(parent: Name, child: Name) {
    |parent| <= |child| && SameName(Ancestor(child, |parent|), parent)
  }

  /** The same character, or a capital letter and its small one. */
  predicate SameLetter(c: char, d: char) {
    c == d || ('A' <= c <= 'Z' && d as int == c as int + 32) || ('A' <= d <= 'Z' && c as int == d as int + 32)
  }

  /** Spelled alike but for letter case. */
  predicate SpelledAlike(a: Label, b: Label) {
    |a| == |b| && forall i :: 0 <= i < |a| ==> SameLetter(a[i], b[i])
  }

  /** A name is inside a zone exactly when it ends in the zone's labels, in any letter case. */
  lemma SubDomainIgnoresCase(parent: Name, child: Name)
    ensures IsSubDomain(parent, child) <==>
            |parent| <= |child| && forall i :: 0 <= i < |parent| ==> SpelledAlike(child[|child| - |parent| + i], parent[i])
  {
    if |parent| <= |child| {
      var last := Ancestor(child, |parent|);
      forall i | 0 <= i < |parent| ensures SameLabel(last[i], parent[i]) <==> SpelledAlike(child[|child| - |parent| + i], parent[i]) {
        LabelsSpelledAlike(last[i], parent[i]);
      }
    }
  }

  lemma LabelsSpelledAlike(a: Label, b: Label)
    ensures SameLabel(a, b) <==> SpelledAlike(a, b)
  {
    forall i | 0 <= i < |a| && i < |b| ensures FoldChar(a[i]) == FoldChar(b[i]) <==> SameLetter(a[i], b[i]) {
    }
  }

  lemma SuffixIsSubDomain(n: Name, k: nat)
    requires k <= |n|
    ensures IsSubDomain(n[k..], n)
  {
    assert Ancestor(n, |n| - k) == n[k..];
  }

  /** Presentation forms identify names: two names with the same text are the same name. */
  lemma {:induction false} TextInjective(a: Name, b: Name)
    requires Text(a) == Text(b)
    ensures a == b
  {
    if a != [] && b != [] {
      DottedInjective(a, b);
    }
  }

  lemma {:induction false} DottedInjective(a: Name, b: Name)
    requires Dotted(a) == Dotted(b)
    ensures a == b
  {
    if a == [] || b == [] {
      return;
    }
    var s := Dotted(a);
    assert s[..|a[0]|] == a[0] && s[|a[0]|] == '.' && s[|a[0]| + 1..] == Dotted(a[1..]);
    assert s[..|b[0]|] == b[0] && s[|b[0]|] == '.' && s[|b[0]| + 1..] == Dotted(b[1..]);
    assert |a[0]| == |b[0]|;
    DottedInjective(a[1..], b[1..]);
    assert a == [a[0]] + a[1..] && b == [b[0]] + b[1..];
  }

  lemma {:induction false} DottedEndsWithDot(n: Name)
    requires n != []
    ensures |Dotted(n)| >= 2 && Dotted(n)[|Dotted(n)| - 1] == '.'
  {
    if |n| > 1 {
      DottedEndsWithDot(n[1..]);
    }
  }

  lemma TextEndsWithDot(n: Name)
    ensures |Text(n)| >= 1 && Text(n)[|Text(n)| - 1] == '.'
  {
    if n != [] {
      DottedEndsWithDot(n);
    }
  }

  lemma {:induction false} DeeperIsLonger(n: Name, i: nat, j: nat)
    requires i < j <= |n|
    ensures |Dotted(n[j..])| < |Dotted(n[i..])|
    decreases j - i
  {
    assert n[i..][1..] == n[i + 1..];
    if i + 1 < j {
      DeeperIsLonger(n, i + 1, j);
    }
  }

  lemma {:induction false} SameNameSameLength(a: Name, b: Name)
    requires SameName(a, b)
    ensures |Dotted(a)| == |Dotted(b)|
  {
    if a == [] {
    } else {
      assert SameLabel(a[0], b[0]);
      forall i | 0 <= i < |a| - 1 ensures SameLabel(a[1..][i], b[1..][i]) {
        assert SameLabel(a[i + 1], b[i + 1]);
      }
      SameNameSameLength(a[1..], b[1..]);
    }
  }
}

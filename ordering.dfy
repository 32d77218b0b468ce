/** Python's comparison of two strings: lexicographic by code point, a proper
    prefix coming first. This is the order `sorted` uses on the cleaned keys. */
module Ordering {

  /** `a <= b` on Python strings. */
  predicate LexLe(a: string, b: string) {
    LexLeFrom(a, b, 0)
  }

  /** `a <= b`, given that the first `i` characters of `a` and `b` agree:
      compare from position `i` on. */
  predicate LexLeFrom(a: string, b: string, i: nat)
    requires i <= |a| && i <= |b|
    decreases |a| - i
  {
    if i == |a| then true
    else if i == |b| then false
    else if a[i] != b[i] then a[i] < b[i]
    else LexLeFrom(a, b, i + 1)
  }

  lemma {:induction false} LexLeFromReflexive(a: string, i: nat)
    requires i <= |a|
    ensures LexLeFrom(a, a, i)
    decreases |a| - i
  {
    if i < |a| {
      LexLeFromReflexive(a, i + 1);
    }
  }

  lemma LexLeReflexive(a: string)
    ensures LexLe(a, a)
  {
    LexLeFromReflexive(a, 0);
  }

  lemma {:induction false} LexLeFromTotal(a: string, b: string, i: nat)
    requires i <= |a| && i <= |b|
    ensures LexLeFrom(a, b, i) || LexLeFrom(b, a, i)
    decreases |a| - i
  {
    if i < |a| && i < |b| && a[i] == b[i] {
      LexLeFromTotal(a, b, i + 1);
    }
  }

  lemma LexLeTotal(a: string, b: string)
    ensures LexLe(a, b) || LexLe(b, a)
  {
    LexLeFromTotal(a, b, 0);
  }

  lemma {:induction false} LexLeFromAntisymmetric(a: string, b: string, i: nat)
    requires i <= |a| && i <= |b| && a[..i] == b[..i]
    requires LexLeFrom(a, b, i) && LexLeFrom(b, a, i)
    ensures a == b
    decreases |a| - i
  {
    if i == |a| || i == |b| {
      assert a == a[..i] && b == b[..i];
    } else {
      assert a[..i + 1] == a[..i] + [a[i]] && b[..i + 1] == b[..i] + [b[i]];
      LexLeFromAntisymmetric(a, b, i + 1);
    }
  }

  lemma LexLeAntisymmetric(a: string, b: string)
    requires LexLe(a, b) && LexLe(b, a)
    ensures a == b
  {
    LexLeFromAntisymmetric(a, b, 0);
  }

  lemma {:induction false} LexLeFromTransitive(a: string, b: string, c: string, i: nat)
    requires i <= |a| && i <= |b| && i <= |c|
    requires LexLeFrom(a, b, i) && LexLeFrom(b, c, i)
    ensures LexLeFrom(a, c, i)
    decreases |a| - i
  {
    if i < |a| && i < |b| && i < |c| && a[i] == b[i] == c[i] {
      LexLeFromTransitive(a, b, c, i + 1);
    }
  }

  lemma LexLeTransitive(a: string, b: string, c: string)
    requires LexLe(a, b) && LexLe(b, c)
    ensures LexLe(a, c)
  {
    LexLeFromTransitive(a, b, c, 0);
  }

  /** Between two non-empty strings in order, the first characters are in order:
      the fact that lets sorting group the keys by their first character. */
  lemma LexLeFirstChar(a: string, b: string)
    requires a != [] && b != [] && LexLe(a, b)
    ensures a[0] <= b[0]
  {
  }

  /** Two non-empty strings whose first characters differ are ordered by them. */
  lemma LexLeByFirstChar(a: string, b: string)
    requires a != [] && b != [] && a[0] != b[0]
    ensures LexLe(a, b) <==> a[0] < b[0]
  {
  }
}

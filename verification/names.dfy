/**
 Entry names and the order in which sibling entries are listed.

 A name is compared first case-insensitively; two names that differ only in
 case are then compared exactly, so "Cat.png" comes before "cat.png". Both
 comparisons follow the shape of Java's `String.compareTo`: the first
 differing character decides, and otherwise the shorter name comes first.
 Characters here are Unicode scalar values, where Java compares UTF-16 code
 units; the two orders agree on every name made of characters below U+D800
 (ASCII names in particular).
 */
module Names {

  /** Ordinal comparison of two strings by character value: the difference
      of the first pair of differing characters, or else the difference of
      the lengths. */
  function CompareTo(a: string, b: string): (r: int)
    ensures r == 0 <==> a == b
  {
    if |a| == 0 || |b| == 0 then |a| - |b|
    else if a[0] != b[0] then a[0] as int - b[0] as int
    else
      var r := CompareTo(a[1..], b[1..]);
      assert a == [a[0]] + a[1..] && b == [b[0]] + b[1..];
      r
  }

  lemma {:induction false} CompareToAntisymmetric(a: string, b: string)
    ensures CompareTo(a, b) == -CompareTo(b, a)
  {
    if |a| == 0 || |b| == 0 {
    } else if a[0] != b[0] {
    } else {
      CompareToAntisymmetric(a[1..], b[1..]);
    }
  }

  lemma {:induction false} CompareToTransitive(a: string, b: string, c: string)
    requires CompareTo(a, b) < 0 && CompareTo(b, c) < 0
    ensures CompareTo(a, c) < 0
  {
    if |a| == 0 || |b| == 0 || |c| == 0 {
    } else if a[0] != b[0] || b[0] != c[0] {
    } else {
      CompareToTransitive(a[1..], b[1..], c[1..]);
    }
  }

  /** Lower-case form of one character; only the letters A-Z change. */
  function LowerChar(c: char): char
  {
    if 'A' <= c <= 'Z' then (c as int + 32) as char else c
  }

  /** Lower-case form of a name, character by character. */
  function Lower(s: string): string
  {
    seq(|s|, i requires 0 <= i < |s| => LowerChar(s[i]))
  }

  /** The sibling comparator: negative when `a` is listed before `b`.
      The case-insensitive comparison decides unless it finds the names
      equal, in which case the exact comparison does. Only identical names
      compare equal, so the order on distinct siblings is total. */
  function NameCompare(a: string, b: string): (r: int)
    ensures r == 0 <==> a == b
  {
    var folded := CompareTo(Lower(a), Lower(b));
    if folded != 0 then folded else CompareTo(a, b)
  }

  lemma NameCompareAntisymmetric(a: string, b: string)
    ensures NameCompare(a, b) == -NameCompare(b, a)
  {
    CompareToAntisymmetric(Lower(a), Lower(b));
    CompareToAntisymmetric(a, b);
  }

  lemma NameCompareTransitive(a: string, b: string, c: string)
    requires NameCompare(a, b) <= 0 && NameCompare(b, c) <= 0
    ensures NameCompare(a, c) <= 0
  {
    if a == b || b == c {
    } else {
      var la, lb, lc := Lower(a), Lower(b), Lower(c);
      if la != lb && lb != lc {
        CompareToTransitive(la, lb, lc);
      } else if la == lb && lb == lc {
        CompareToTransitive(a, b, c);
      }
    }
  }

  /** Names that differ only in case are ordered upper case first. */
  lemma UpperCaseFirst()
    ensures NameCompare("Cat.png", "cat.png") < 0
  {
    assert Lower("Cat.png") == Lower("cat.png");
    assert "Cat.png"[0] == 'C' && "cat.png"[0] == 'c';
  }
}

/** Small helpers shared by the modules of this model: optional and fatal-error
    results, and the ASCII case folding that the engine's string helpers use. */
module QShared {

  datatype Option<T> = None | Some(value: T)

  /** Error(), CG_Error() and Com_Error(ERR_FATAL, ...) never return to their
      caller; a call to one of them is modelled as a Fatal outcome. */
  datatype Outcome<T> = Done(value: T) | Fatal(message: string)

  /** Folds 'A'..'Z' to 'a'..'z' and leaves every other character alone. */
  function LowerChar(c: char): (r: char)
    ensures 'A' <= c <= 'Z' ==> r as int == c as int + 32
    ensures !('A' <= c <= 'Z') ==> r == c
  {
    if 'A' <= c <= 'Z' then (c as int + 32) as char else c
  }

  function Lower(s: string): (r: string)
    ensures |r| == |s|
    ensures forall i :: 0 <= i < |s| ==> r[i] == LowerChar(s[i])
  {
    if s == [] then [] else [LowerChar(s[0])] + Lower(s[1..])
  }

  /** Folds 'a'..'z' to 'A'..'Z' and leaves every other character alone: the
      fold Q_stricmp applies to both strings before comparing them. */
  function UpperChar(c: char): (r: char)
    ensures 'a' <= c <= 'z' ==> r as int == c as int - 32
    ensures !('a' <= c <= 'z') ==> r == c
  {
    if 'a' <= c <= 'z' then (c as int - 32) as char else c
  }

  function Upper(s: string): (r: string)
    ensures |r| == |s|
    ensures forall i :: 0 <= i < |s| ==> r[i] == UpperChar(s[i])
  {
    if s == [] then [] else [UpperChar(s[0])] + Upper(s[1..])
  }

  /** Q_stricmp(a, b) == 0: equality after folding the case of ASCII letters. */
  predicate EqualsIgnoreCase(a: string, b: string) {
    Upper(a) == Upper(b)
  }

  /** Folding either way identifies the same characters. */
  lemma FoldsAgree(c: char, d: char)
    ensures UpperChar(c) == UpperChar(d) <==> LowerChar(c) == LowerChar(d)
  {
  }

  /** Folding either way identifies the same strings, so strlwr-based and
      Q_stricmp-based equality agree. */
  lemma EqualsIgnoreCaseLower(a: string, b: string)
    ensures EqualsIgnoreCase(a, b) <==> Lower(a) == Lower(b)
  {
    var ua, ub, la, lb := Upper(a), Upper(b), Lower(a), Lower(b);
    if |a| == |b| {
      forall i | 0 <= i < |a| ensures ua[i] == ub[i] <==> la[i] == lb[i] {
        FoldsAgree(a[i], b[i]);
      }
      if ua == ub {
        assert forall i :: 0 <= i < |a| ==> la[i] == lb[i];
      }
      if la == lb {
        assert forall i :: 0 <= i < |a| ==> ua[i] == ub[i];
      }
    }
  }

  /** Lexicographic order on code points; a proper prefix comes first. */
  predicate LexLeq(a: string, b: string)
    decreases |a|
  {
    a == [] || (b != [] && (a[0] < b[0] || (a[0] == b[0] && LexLeq(a[1..], b[1..]))))
  }

  /** Q_stricmp(a, b) <= 0: the code points of the upper-cased strings in
      lexicographic order, so '_' (between 'Z' and 'a') sorts after letters. */
  predicate LeqIgnoreCase(a: string, b: string) {
    LexLeq(Upper(a), Upper(b))
  }

  lemma {:induction false} LexLeqTotal(a: string, b: string)
    ensures LexLeq(a, b) || LexLeq(b, a)
    decreases |a|
  {
    if a != [] && b != [] && a[0] == b[0] {
      LexLeqTotal(a[1..], b[1..]);
    }
  }

  lemma {:induction false} LexLeqTransitive(a: string, b: string, c: string)
    requires LexLeq(a, b) && LexLeq(b, c)
    ensures LexLeq(a, c)
    decreases |a|
  {
    if a != [] && b != [] && c != [] && a[0] == b[0] && b[0] == c[0] {
      LexLeqTransitive(a[1..], b[1..], c[1..]);
    }
  }

  lemma {:induction false} LexLeqAntisymmetric(a: string, b: string)
    requires LexLeq(a, b) && LexLeq(b, a)
    ensures a == b
    decreases |a|
  {
    if a != [] {
      LexLeqAntisymmetric(a[1..], b[1..]);
      assert a == [a[0]] + a[1..] && b == [b[0]] + b[1..];
    }
  }

  /** strstr(s, t) == s: t is a prefix of s */
  predicate StartsWith(s: string, t: string) {
    |t| <= |s| && s[..|t|] == t
  }

  /** t occurs in s starting at index i */
  predicate OccursAt(s: string, t: string, i: int) {
    0 <= i <= |s| - |t| && s[i..i + |t|] == t
  }

  /** strstr(s, t) != NULL: t occurs somewhere in s */
  predicate Contains(s: string, t: string) {
    exists i :: 0 <= i <= |s| - |t| && OccursAt(s, t, i)
  }

  /** The part of a C string before its first NUL. */
  function CString(s: string): (r: string)
    ensures |r| <= |s| && r == s[..|r|]
    ensures '\0' !in r
    ensures |r| < |s| ==> s[|r|] == '\0'
  {
    if s == [] || s[0] == '\0' then [] else [s[0]] + CString(s[1..])
  }

  /** C's integer division by a positive divisor, which truncates toward zero. */
  function CDiv(a: int, b: int): (q: int)
    requires b > 0
    ensures a >= 0 ==> q * b <= a < q * b + b
    ensures a < 0 ==> q * b - b < a <= q * b
  {
    if a >= 0 then a / b else -((-a) / b)
  }

  /** Concatenation regrouped, for the steps of loops that append. */
  lemma ConcatAssoc<T>(a: seq<T>, b: seq<T>, c: seq<T>)
    ensures a + (b + c) == (a + b) + c
  {
  }
}

/** Sequence and string helpers shared by the tools: prefix and substring
    tests (Python's `startswith` and `in` on `str`/`bytes`), `sep.join(...)`,
    and the lexicographic order Python uses to compare strings and lists. */
module Text {

  datatype Option<+T> = None | Some(value: T)

  /** `s.startswith(p)` */
  predicate StartsWith<T(==)>(s: seq<T>, p: seq<T>)
  {
    |p| <= |s| && s[..|p|] == p
  }

  /** `needle` occurs in `hay` starting at position `i`. */
  predicate OccursAt<T(==)>(hay: seq<T>, needle: seq<T>, i: int)
  {
    0 <= i <= |hay| - |needle| && hay[i..i + |needle|] == needle
  }

  /** `needle in hay`: a linear scan that tries every start position. */
  function Contains<T(==)>(hay: seq<T>, needle: seq<T>): (r: bool)
    ensures r <==> exists i :: OccursAt(hay, needle, i)
    decreases |hay|
  {
    if StartsWith(hay, needle) then
      assert OccursAt(hay, needle, 0);
      true
    else if |hay| <= |needle| then
      assert forall i :: OccursAt(hay, needle, i) ==> i == 0;
      false
    else
      var r := Contains(hay[1..], needle);
      assert forall i :: OccursAt(hay[1..], needle, i) <==> OccursAt(hay, needle, i + 1) by {
        forall i
          ensures OccursAt(hay[1..], needle, i) <==> OccursAt(hay, needle, i + 1)
        {
          if 0 <= i <= |hay| - 1 - |needle| {
            assert hay[1..][i..i + |needle|] == hay[i + 1..i + 1 + |needle|];
          }
        }
      }
      assert forall i :: OccursAt(hay, needle, i) ==> i > 0 && OccursAt(hay[1..], needle, i - 1);
      r
  }

  /** Containment of a two-element pattern, stated position by position. */
  lemma {:induction false} ContainsPair<T>(hay: seq<T>, a: T, b: T)
    ensures Contains(hay, [a, b]) <==> exists i :: 0 <= i < |hay| - 1 && hay[i] == a && hay[i + 1] == b
  {
    if Contains(hay, [a, b]) {
      var i :| OccursAt(hay, [a, b], i);
      assert hay[i] == hay[i..i + 2][0] && hay[i + 1] == hay[i..i + 2][1];
    }
    if i :| 0 <= i < |hay| - 1 && hay[i] == a && hay[i + 1] == b {
      assert OccursAt(hay, [a, b], i);
    }
  }

  /** Containment of a one-element pattern is ordinary membership. */
  lemma {:induction false} ContainsSingle<T>(hay: seq<T>, a: T)
    ensures Contains(hay, [a]) <==> a in hay
  {
    if Contains(hay, [a]) {
      var i :| OccursAt(hay, [a], i);
      assert hay[i] == hay[i..i + 1][0];
    }
    if a in hay {
      var i :| 0 <= i < |hay| && hay[i] == a;
      assert OccursAt(hay, [a], i);
    }
  }

  /** `sep.join(parts)` */
  function Join(sep: string, parts: seq<string>): (r: string)
    ensures parts == [] ==> r == ""
    ensures |parts| == 1 ==> r == parts[0]
  {
    if parts == [] then ""
    else if |parts| == 1 then parts[0]
    else parts[0] + sep + Join(sep, parts[1..])
  }

  /** `"".join(parts)`, as a left fold so that appending one part is one step. */
  lemma {:induction false} JoinEmptyAppend(parts: seq<string>, last: string)
    ensures Join("", parts + [last]) == Join("", parts) + last
  {
    if parts == [] {
      assert parts + [last] == [last];
    } else if |parts| == 1 {
      assert parts + [last] == [parts[0], last];
    } else {
      assert (parts + [last])[1..] == parts[1..] + [last];
      JoinEmptyAppend(parts[1..], last);
    }
  }

  /* ---------------- lexicographic order ---------------- */

  /** Lexicographic "less or equal" on sequences, built from a strict order
      on the elements; a proper prefix comes first. This is how Python
      compares two `str` (by code point) and two `list`s. */
  predicate LexLe<T(==)>(a: seq<T>, b: seq<T>, lt: (T, T) -> bool)
    decreases |a|
  {
    if a == [] then true
    else if b == [] then false
    else if a[0] != b[0] then lt(a[0], b[0])
    else LexLe(a[1..], b[1..], lt)
  }

  ghost predicate StrictTotalOrder<T(!new)>(lt: (T, T) -> bool)
  {
    && (forall x :: !lt(x, x))
    && (forall x, y, z :: lt(x, y) && lt(y, z) ==> lt(x, z))
    && (forall x, y :: x == y || lt(x, y) || lt(y, x))
  }

  lemma {:induction false} LexTotal<T(!new)>(a: seq<T>, b: seq<T>, lt: (T, T) -> bool)
    requires StrictTotalOrder(lt)
    ensures LexLe(a, b, lt) || LexLe(b, a, lt)
    decreases |a|
  {
    if a != [] && b != [] && a[0] == b[0] {
      LexTotal(a[1..], b[1..], lt);
    }
  }

  lemma {:induction false} LexAntisymmetric<T(!new)>(a: seq<T>, b: seq<T>, lt: (T, T) -> bool)
    requires StrictTotalOrder(lt)
    requires LexLe(a, b, lt) && LexLe(b, a, lt)
    ensures a == b
    decreases |a|
  {
    if a != [] && b != [] && a[0] == b[0] {
      LexAntisymmetric(a[1..], b[1..], lt);
      assert a == [a[0]] + a[1..] && b == [b[0]] + b[1..];
    }
  }

  lemma {:induction false} LexTransitive<T(!new)>(a: seq<T>, b: seq<T>, c: seq<T>, lt: (T, T) -> bool)
    requires StrictTotalOrder(lt)
    requires LexLe(a, b, lt) && LexLe(b, c, lt)
    ensures LexLe(a, c, lt)
    decreases |a|
  {
    if a != [] && b != [] && c != [] && a[0] == b[0] && b[0] == c[0] {
      LexTransitive(a[1..], b[1..], c[1..], lt);
    }
  }

  function CharLt(x: char, y: char): bool { x < y }

  /** Python's `a <= b` on two `str`. */
  predicate StrLe(a: string, b: string) { LexLe(a, b, CharLt) }

  /** Python's `a < b` on two `str`. */
  predicate StrLt(a: string, b: string) { StrLe(a, b) && a != b }

  lemma CharLtIsStrict()
    ensures StrictTotalOrder(CharLt)
  {
  }

  lemma StrLtIsStrict()
    ensures StrictTotalOrder(StrLt)
  {
    CharLtIsStrict();
    forall x: string, y: string, z: string | StrLt(x, y) && StrLt(y, z)
      ensures StrLt(x, z)
    {
      LexTransitive(x, y, z, CharLt);
      if x == z { LexAntisymmetric(x, y, CharLt); }
    }
    forall x: string, y: string
      ensures x == y || StrLt(x, y) || StrLt(y, x)
    {
      LexTotal(x, y, CharLt);
    }
  }

  /** `str` comparison is a total order. */
  lemma StrLeOrder(a: string, b: string, c: string)
    ensures StrLe(a, b) || StrLe(b, a)
    ensures StrLe(a, b) && StrLe(b, a) ==> a == b
    ensures StrLe(a, b) && StrLe(b, c) ==> StrLe(a, c)
  {
    CharLtIsStrict();
    LexTotal(a, b, CharLt);
    if StrLe(a, b) && StrLe(b, a) { LexAntisymmetric(a, b, CharLt); }
    if StrLe(a, b) && StrLe(b, c) { LexTransitive(a, b, c, CharLt); }
  }

  /** Python's `<=` on two lists of `str` (how `pathlib` orders paths: by parts). */
  predicate PartsLe(a: seq<string>, b: seq<string>) { LexLe(a, b, StrLt) }

  lemma PartsLeOrder(a: seq<string>, b: seq<string>, c: seq<string>)
    ensures PartsLe(a, b) || PartsLe(b, a)
    ensures PartsLe(a, b) && PartsLe(b, a) ==> a == b
    ensures PartsLe(a, b) && PartsLe(b, c) ==> PartsLe(a, c)
  {
    StrLtIsStrict();
    LexTotal(a, b, StrLt);
    if PartsLe(a, b) && PartsLe(b, a) { LexAntisymmetric(a, b, StrLt); }
    if PartsLe(a, b) && PartsLe(b, c) { LexTransitive(a, b, c, StrLt); }
  }
}

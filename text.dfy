/** The string operations the search filter uses: `toLowerCase`, `includes`
    and `Array.prototype.join`. Strings are sequences of characters. */
module Text {

  /** `toLowerCase` on one character, restricted to ASCII letters. */
  function Lower(c: char): char {
    if 'A' <= c <= 'Z' then (c as int + 32) as char else c
  }

  /** `toLowerCase` on a string, character by character: the result has the
      same length, no capital letter, and every other character unchanged. */
  function LowerStr(s: string): (r: string)
    ensures |r| == |s|
    ensures forall i :: 0 <= i < |r| ==> !('A' <= r[i] <= 'Z')
  {
    seq(|s|, i requires 0 <= i < |s| => Lower(s[i]))
  }

  /** What lowercasing does to each character: a capital letter becomes the
      matching small letter and every other character is kept. */
  lemma LowerStrChars(s: string)
    ensures forall i :: 0 <= i < |s| && 'A' <= s[i] <= 'Z' ==>
      LowerStr(s)[i] as int == s[i] as int + 32 && 'a' <= LowerStr(s)[i] <= 'z'
    ensures forall i :: 0 <= i < |s| && !('A' <= s[i] <= 'Z') ==> LowerStr(s)[i] == s[i]
  {
  }

  /** Lowercasing distributes over concatenation. */
  lemma LowerConcat(a: string, b: string)
    ensures LowerStr(a + b) == LowerStr(a) + LowerStr(b)
  {
  }

  /** Lowercasing a lowercased string changes nothing. */
  lemma LowerIdempotent(s: string)
    ensures LowerStr(LowerStr(s)) == LowerStr(s)
  {
  }

  /** `needle` occurs in `hay` starting at position `i`. */
  predicate OccursAt(hay: string, needle: string, i: int) {
    0 <= i && i + |needle| <= |hay| && hay[i..i + |needle|] == needle
  }

  /** `hay.includes(needle)`: tries each starting position from the left. */
  function Includes(hay: string, needle: string): (r: bool)
    ensures r <==> exists i :: OccursAt(hay, needle, i)
  {
    if |needle| > |hay| then false
    else if hay[..|needle|] == needle then
      assert OccursAt(hay, needle, 0);
      true
    else
      var r := Includes(hay[1..], needle);
      assert forall i :: OccursAt(hay[1..], needle, i) ==> OccursAt(hay, needle, i + 1) by {
        forall i | OccursAt(hay[1..], needle, i) ensures OccursAt(hay, needle, i + 1) {
          assert hay[1..][i..i + |needle|] == hay[i + 1..i + 1 + |needle|];
        }
      }
      assert forall i :: OccursAt(hay, needle, i) ==> OccursAt(hay[1..], needle, i - 1) by {
        forall i | OccursAt(hay, needle, i) ensures OccursAt(hay[1..], needle, i - 1) {
          assert i != 0;
          assert hay[1..][i - 1..i - 1 + |needle|] == hay[i..i + |needle|];
        }
      }
      r
  }

  /** An occurrence inside either operand is an occurrence in the concatenation. */
  lemma OccursInConcat(a: string, b: string, needle: string, i: int)
    ensures OccursAt(a, needle, i) ==> OccursAt(a + b, needle, i)
    ensures OccursAt(b, needle, i) ==> OccursAt(a + b, needle, |a| + i)
  {
    if OccursAt(a, needle, i) {
      assert (a + b)[i..i + |needle|] == a[i..i + |needle|];
    }
    if OccursAt(b, needle, i) {
      assert (a + b)[|a| + i..|a| + i + |needle|] == b[i..i + |needle|];
    }
  }

  /** An occurrence inside the middle operand is an occurrence in the whole concatenation. */
  lemma OccursInMiddle(a: string, b: string, c: string, needle: string, i: int)
    requires OccursAt(b, needle, i)
    ensures OccursAt(a + b + c, needle, |a| + i)
  {
    assert (a + b + c)[|a| + i..|a| + i + |needle|] == b[i..i + |needle|];
  }

  /** An occurrence in one of three strings (0, 1 or 2) is an occurrence in
      the three joined by single spaces. */
  lemma OccursInSpaced(a: string, b: string, c: string, part: nat, needle: string, i: int)
    requires part <= 2 && OccursAt([a, b, c][part], needle, i)
    ensures Includes(a + " " + b + " " + c, needle)
  {
    if part == 0 {
      OccursInMiddle("", a, " " + b + " " + c, needle, i);
      assert "" + a + (" " + b + " " + c) == a + " " + b + " " + c;
    } else if part == 1 {
      OccursInMiddle(a + " ", b, " " + c, needle, i);
      assert (a + " ") + b + (" " + c) == a + " " + b + " " + c;
    } else {
      OccursInMiddle(a + " " + b + " ", c, "", needle, i);
      assert a + " " + b + " " + c + "" == a + " " + b + " " + c;
    }
  }

  /** An occurrence of `c` in `b`, with `b` occurring in `a`, is an occurrence in `a`. */
  lemma OccursTransitive(a: string, b: string, c: string, j: int, i: int)
    requires OccursAt(a, b, j) && OccursAt(b, c, i)
    ensures OccursAt(a, c, j + i)
  {
    forall k | 0 <= k < |c| ensures a[j + i..j + i + |c|][k] == c[k] {
      assert b[i..i + |c|][k] == b[i + k];
      assert a[j..j + |b|][i + k] == a[j + i + k];
    }
  }

  /** An occurrence survives lowercasing of both strings. */
  lemma OccursLower(hay: string, needle: string, i: int)
    requires OccursAt(hay, needle, i)
    ensures OccursAt(LowerStr(hay), LowerStr(needle), i)
  {
    assert LowerStr(hay)[i..i + |needle|] == LowerStr(hay[i..i + |needle|]);
  }

  /** The total length of the parts. */
  function TotalLength(parts: seq<string>): nat {
    if parts == [] then 0 else |parts[0]| + TotalLength(parts[1..])
  }

  /** `parts.join(sep)`: the parts with `sep` between neighbours. It is as
      long as the parts plus one separator fewer than there are parts, and it
      begins with the first part. */
  function Join(parts: seq<string>, sep: string): (r: string)
    ensures |parts| == 0 ==> r == ""
    ensures |parts| > 0 ==> |r| == TotalLength(parts) + (|parts| - 1) * |sep|
    ensures |parts| > 0 ==> parts[0] <= r
  {
    if |parts| == 0 then ""
    else if |parts| == 1 then parts[0]
    else parts[0] + sep + Join(parts[1..], sep)
  }

  /** Joining splits at any part boundary: the parts before `k` joined, a
      separator, and the parts from `k` on joined. */
  lemma {:induction false} JoinSplit(parts: seq<string>, sep: string, k: nat)
    requires 0 < k < |parts|
    ensures Join(parts, sep) == Join(parts[..k], sep) + sep + Join(parts[k..], sep)
  {
    if k > 1 {
      var rest := parts[1..];
      JoinSplit(rest, sep, k - 1);
      assert parts[..k][1..] == rest[..k - 1];
      assert rest[k - 1..] == parts[k..];
    } else {
      assert parts[..1] == [parts[0]];
    }
  }

  /** Every part occurs somewhere in the joined string. */
  lemma {:induction false} JoinContainsPart(parts: seq<string>, sep: string, k: nat)
    requires k < |parts|
    ensures exists i :: OccursAt(Join(parts, sep), parts[k], i)
  {
    if |parts| == 1 {
      assert OccursAt(Join(parts, sep), parts[k], 0);
    } else if k == 0 {
      var rest := sep + Join(parts[1..], sep);
      assert Join(parts, sep) == parts[0] + rest;
      assert OccursAt(parts[0], parts[0], 0);
      OccursInConcat(parts[0], rest, parts[0], 0);
    } else {
      JoinContainsPart(parts[1..], sep, k - 1);
      var i :| OccursAt(Join(parts[1..], sep), parts[k], i);
      assert parts[1..][k - 1] == parts[k];
      assert Join(parts, sep) == (parts[0] + sep) + Join(parts[1..], sep);
      OccursInConcat(parts[0] + sep, Join(parts[1..], sep), parts[k], i);
      assert OccursAt(Join(parts, sep), parts[k], |parts[0] + sep| + i);
    }
  }
}

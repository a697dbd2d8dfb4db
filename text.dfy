/** String operations of the JavaScript runtime that the backend relies on:
    `toLowerCase`, `trim`, `split(' ')` and `includes`. Strings are sequences of
    Unicode scalar values. */
module Text {

  /** Lower-case mapping of one character, as `String.prototype.toLowerCase`
      does it for ASCII and Latin-1 capitals (U+0041..U+005A and U+00C0..U+00DE
      except the multiplication sign U+00D7). */
  function LowerChar(c: char): (d: char)
    ensures IsCapital(c) ==> d as int == c as int + 32 && !IsCapital(d)
    ensures !IsCapital(c) ==> d == c
    ensures IsSpace(d) == IsSpace(c)
  {
    if IsCapital(c) then (c as int + 32) as char else c
  }

  /** The capitals that `LowerChar` lowers: A..Z and the Latin-1 capitals
      U+00C0..U+00DE other than the multiplication sign U+00D7. */
  predicate IsCapital(c: char) {
    var n := c as int;
    0x41 <= n <= 0x5A || (0xC0 <= n <= 0xDE && n != 0xD7)
  }

  /** `s.toLowerCase()`, character by character. */
  function Lower(s: string): (r: string)
    ensures |r| == |s|
    ensures forall k :: 0 <= k < |s| ==> r[k] == LowerChar(s[k])
  {
    seq(|s|, k requires 0 <= k < |s| => LowerChar(s[k]))
  }

  /** The characters that `trim` removes: ECMAScript WhiteSpace (TAB, VT, FF,
      ZWNBSP and the Zs category) and LineTerminator (LF, CR, LS, PS). */
  predicate IsSpace(c: char) {
    var n := c as int;
    (0x09 <= n <= 0x0D) || n == 0x20 || n == 0xA0 || n == 0x1680
    || (0x2000 <= n <= 0x200A) || n == 0x2028 || n == 0x2029 || n == 0x202F
    || n == 0x205F || n == 0x3000 || n == 0xFEFF
  }

  predicate AllSpace(s: string) {
    forall k :: 0 <= k < |s| ==> IsSpace(s[k])
  }

  /** Every character of `s` at an index in `[lo, hi)` is white space. */
  ghost predicate SpaceBetween(s: string, lo: int, hi: int) {
    forall k :: lo <= k < hi && 0 <= k < |s| ==> IsSpace(s[k])
  }

  /** Where the leading white space of `s` ends, scanning from index `i`. */
  function SkipSpace(s: string, i: nat): (n: nat)
    requires i <= |s| && SpaceBetween(s, 0, i)
    ensures i <= n <= |s| && SpaceBetween(s, 0, n)
    ensures n < |s| ==> !IsSpace(s[n])
    decreases |s| - i
  {
    if i == |s| || !IsSpace(s[i]) then i else SkipSpace(s, i + 1)
  }

  /** Where the trailing white space of `s` begins, scanning back from index `j`. */
  function SkipSpaceBack(s: string, j: nat): (n: nat)
    requires j <= |s| && SpaceBetween(s, j, |s|)
    ensures n <= j && SpaceBetween(s, n, |s|)
    ensures n > 0 ==> !IsSpace(s[n - 1])
  {
    if j == 0 || !IsSpace(s[j - 1]) then j else SkipSpaceBack(s, j - 1)
  }

  /** `s.trim()`: the part of `s` between its leading and its trailing white
      space (empty when `s` is all white space). */
  function Trim(s: string): (r: string)
    ensures r != [] ==> !IsSpace(r[0]) && !IsSpace(r[|r| - 1])
  {
    var i := SkipSpace(s, 0);
    var j := SkipSpaceBack(s, |s|);
    if j <= i then [] else s[i..j]
  }

  /** The slice of `s` that `Trim` keeps; its margins are white space. */
  lemma TrimIsSlice(s: string) returns (i: nat, j: nat)
    ensures i <= j <= |s| && Trim(s) == s[i..j]
    ensures SpaceBetween(s, 0, i) && SpaceBetween(s, j, |s|)
  {
    i := SkipSpace(s, 0);
    j := SkipSpaceBack(s, |s|);
    if j <= i {
      j := i;
    }
  }

  /** Any slice with white-space margins whose ends are not white space is the
      trimmed string: `Trim` is determined by these properties. */
  lemma {:induction false} TrimUnique(s: string, i: nat, j: nat)
    requires i <= j <= |s|
    requires SpaceBetween(s, 0, i) && SpaceBetween(s, j, |s|)
    requires i < j ==> !IsSpace(s[i]) && !IsSpace(s[j - 1])
    ensures Trim(s) == s[i..j]
  {
    var i', j' := TrimIsSlice(s);
    var r := Trim(s);
    if i' < j' {
      assert r[0] == s[i'] && r[|r| - 1] == s[j' - 1];
      assert i <= i' && j' <= j;
      assert i == i' && j == j';
    } else {
      assert i == j;
    }
  }

  /** Surrounding white space does not change the trimmed string. */
  lemma {:induction false} TrimIgnoresPadding(p: string, s: string, q: string)
    requires AllSpace(p) && AllSpace(q)
    ensures Trim(p + s + q) == Trim(s)
  {
    var i, j := TrimIsSlice(s);
    PaddedMargins(p, s, q, i, j);
    TrimOfPadded(p + s + q, |p| + i, |p| + j, s[i..j]);
  }

  lemma TrimOfPadded(t: string, a: nat, b: nat, r: string)
    requires a <= b <= |t| && t[a..b] == r
    requires SpaceBetween(t, 0, a) && SpaceBetween(t, b, |t|)
    requires a < b ==> !IsSpace(t[a]) && !IsSpace(t[b - 1])
    ensures Trim(t) == r
  {
    TrimUnique(t, a, b);
  }

  /** The white-space margins of `s` stay white space once `s` is padded. */
  lemma PaddedMargins(p: string, s: string, q: string, i: nat, j: nat)
    requires AllSpace(p) && AllSpace(q)
    requires i <= j <= |s| && SpaceBetween(s, 0, i) && SpaceBetween(s, j, |s|)
    requires i < j ==> !IsSpace(s[i]) && !IsSpace(s[j - 1])
    ensures var t := p + s + q; var n := |p|;
      && SpaceBetween(t, 0, n + i) && SpaceBetween(t, n + j, |t|)
      && t[n + i..n + j] == s[i..j]
      && (i < j ==> !IsSpace(t[n + i]) && !IsSpace(t[n + j - 1]))
  {
    var ps := p + s;
    var t := ps + q;
    var n := |p|;
    forall k | 0 <= k < n + i ensures IsSpace(t[k]) {
      if k < n { assert t[k] == p[k]; } else { assert t[k] == s[k - n]; }
    }
    forall k | n + j <= k < |t| ensures IsSpace(t[k]) {
      if k >= |ps| { assert t[k] == q[k - |ps|]; } else { assert t[k] == s[k - n]; }
    }
    assert t[n + i..n + j] == s[i..j];
  }

  /** Trimming twice is trimming once. */
  lemma TrimIdempotent(s: string)
    ensures Trim(Trim(s)) == Trim(s)
  {
    var r := Trim(s);
    assert r[0..|r|] == r;
    TrimUnique(r, 0, |r|);
  }

  /** `s.split(sep)`: the pieces between occurrences of `sep`, at least one. */
  function Split(s: string, sep: char): (r: seq<string>)
    ensures |r| >= 1
    ensures forall k :: 0 <= k < |r| ==> sep !in r[k]
  {
    if s == [] then [[]]
    else
      var rest := Split(s[1..], sep);
      if s[0] == sep then [[]] + rest else [[s[0]] + rest[0]] + rest[1..]
  }

  /** `parts.join(sep)`. */
  function Join(parts: seq<string>, sep: char): (s: string)
    requires |parts| >= 1
  {
    if |parts| == 1 then parts[0] else parts[0] + [sep] + Join(parts[1..], sep)
  }

  /** Joining the pieces again gives back the split string. */
  lemma {:induction false} JoinSplit(s: string, sep: char)
    ensures Join(Split(s, sep), sep) == s
  {
    if s != [] {
      var rest := Split(s[1..], sep);
      JoinSplit(s[1..], sep);
      if s[0] != sep {
        var r := Split(s, sep);
        assert r[1..] == rest[1..];
        if |rest| > 1 {
          assert rest == [rest[0]] + rest[1..];
          assert Join(rest, sep) == rest[0] + [sep] + Join(rest[1..], sep);
        }
      } else {
        assert ([[]] + rest)[1..] == rest;
      }
    }
  }

  /** Splitting a string whose first `|a|` characters are no separator keeps
      them at the front of the first piece. */
  lemma {:induction false} SplitAfterPlain(a: string, t: string, sep: char)
    requires sep !in a
    ensures Split(a + t, sep) == [a + Split(t, sep)[0]] + Split(t, sep)[1..]
  {
    if a != [] {
      assert (a + t)[1..] == a[1..] + t;
      SplitAfterPlain(a[1..], t, sep);
      assert [a[0]] + (a[1..] + Split(t, sep)[0]) == a + Split(t, sep)[0];
    } else {
      assert a + t == t;
      assert a + Split(t, sep)[0] == Split(t, sep)[0];
      assert Split(t, sep) == [Split(t, sep)[0]] + Split(t, sep)[1..];
    }
  }

  /** Splitting the joined pieces gives back pieces that held no separator. */
  lemma {:induction false} SplitJoin(parts: seq<string>, sep: char)
    requires |parts| >= 1
    requires forall k :: 0 <= k < |parts| ==> sep !in parts[k]
    ensures Split(Join(parts, sep), sep) == parts
  {
    if |parts| == 1 {
      SplitAfterPlain(parts[0], [], sep);
      assert parts[0] + [] == parts[0];
    } else {
      var tail := Join(parts[1..], sep);
      SplitJoin(parts[1..], sep);
      assert ([sep] + tail)[1..] == tail;
      assert Split([sep] + tail, sep) == [[]] + parts[1..];
      assert parts[0] + [sep] + tail == parts[0] + ([sep] + tail);
      SplitAfterPlain(parts[0], [sep] + tail, sep);
      assert parts[0] + [] == parts[0];
      assert parts == [parts[0]] + parts[1..];
    }
  }

  /** `k` occurs in `s` starting at index `i`. */
  ghost predicate OccursAt(s: string, k: string, i: int) {
    0 <= i && i + |k| <= |s| && s[i..i + |k|] == k
  }

  /** `s.includes(k)`, scanning `s` from the left. */
  function Includes(s: string, k: string): (b: bool)
    ensures b <==> exists i :: OccursAt(s, k, i)
  {
    if |k| <= |s| && s[..|k|] == k then
      assert OccursAt(s, k, 0);
      true
    else if s == [] then
      false
    else
      var b := Includes(s[1..], k);
      assert forall i :: OccursAt(s[1..], k, i) ==> OccursAt(s, k, i + 1) by {
        forall i | OccursAt(s[1..], k, i) ensures OccursAt(s, k, i + 1) {
          assert s[1..][i..i + |k|] == s[i + 1..i + 1 + |k|];
        }
      }
      assert forall i :: OccursAt(s, k, i) ==> i > 0 && OccursAt(s[1..], k, i - 1) by {
        forall i | OccursAt(s, k, i) ensures i > 0 && OccursAt(s[1..], k, i - 1) {
          assert s[1..][i - 1..i - 1 + |k|] == s[i..i + |k|];
        }
      }
      b
  }
}

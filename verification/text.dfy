/**
 * The JavaScript string operations the controller relies on: `trim()`,
 * `startsWith(prefix)` and `split(sep)` for a one-character separator,
 * together with `Join`, the inverse of `Split`, and `EndsWith`, which the
 * filename reader in `Submission` uses.
 */
module Text {

  /**
   * The characters `String.prototype.trim` removes: ECMAScript's WhiteSpace
   * (tab, vertical tab, form feed, space, no-break space, the byte-order mark
   * and the space separators of category Zs) and LineTerminator (line feed,
   * carriage return, line and paragraph separators).
   */
  predicate IsWhiteSpace(c: char) {
    var k := c as int;
    k == 0x09 || k == 0x0A || k == 0x0B || k == 0x0C || k == 0x0D ||
    k == 0x20 || k == 0xA0 || k == 0x1680 || (0x2000 <= k <= 0x200A) ||
    k == 0x2028 || k == 0x2029 || k == 0x202F || k == 0x205F ||
    k == 0x3000 || k == 0xFEFF
  }

  predicate AllWhiteSpace(s: string) {
    forall i :: 0 <= i < |s| ==> IsWhiteSpace(s[i])
  }

  /** Every character of `s` from index `lo` up to (not including) `hi` is white space. */
  predicate WhiteSpaceBetween(s: string, lo: nat, hi: nat)
    requires lo <= hi <= |s|
  {
    forall i :: lo <= i < hi ==> IsWhiteSpace(s[i])
  }

  /** Neither end of `s` is white space (vacuously so for the empty string). */
  predicate Trimmed(s: string) {
    s == [] || (!IsWhiteSpace(s[0]) && !IsWhiteSpace(s[|s| - 1]))
  }

  /** The first index at or after `lo` that is not white space (`|s|` if there is none). */
  function Start(s: string, lo: nat): (i: nat)
    requires lo <= |s|
    ensures lo <= i <= |s| && WhiteSpaceBetween(s, lo, i)
    ensures i < |s| ==> !IsWhiteSpace(s[i])
    decreases |s| - lo
  {
    if lo < |s| && IsWhiteSpace(s[lo]) then Start(s, lo + 1) else lo
  }

  /** The index just past the last character before `hi` that is not white space, but no lower than `lo`. */
  function End(s: string, lo: nat, hi: nat): (e: nat)
    requires lo <= hi <= |s|
    ensures lo <= e <= hi && WhiteSpaceBetween(s, e, hi)
    ensures e > lo ==> !IsWhiteSpace(s[e - 1])
  {
    if hi > lo && IsWhiteSpace(s[hi - 1]) then End(s, lo, hi - 1) else hi
  }

  /** `s.trim()`: `s` without its leading and its trailing white space. */
  function Trim(s: string): (r: string)
    ensures Trimmed(r)
    ensures var i := Start(s, 0);
      i + |r| <= |s| && r == s[i..i + |r|] &&
      WhiteSpaceBetween(s, 0, i) && WhiteSpaceBetween(s, i + |r|, |s|)
  {
    var i := Start(s, 0);
    var e := End(s, i, |s|);
    s[i..e]
  }

  /** A string trims to nothing exactly when it is all white space. */
  lemma TrimEmpty(s: string)
    ensures Trim(s) == [] <==> AllWhiteSpace(s)
  {
    var r, i := Trim(s), Start(s, 0);
    if r != [] {
      assert r[0] == s[i];
    }
  }

  /** `Start` is the end of the white-space run from `lo`: any such run end is it. */
  lemma {:induction false} StartAt(s: string, lo: nat, k: nat)
    requires lo <= k <= |s| && WhiteSpaceBetween(s, lo, k) && (k < |s| ==> !IsWhiteSpace(s[k]))
    ensures Start(s, lo) == k
    decreases k - lo
  {
    if lo < k {
      StartAt(s, lo + 1, k);
    }
  }

  /** `End` is the start of the white-space run before `hi`: any such run start is it. */
  lemma {:induction false} EndAt(s: string, lo: nat, hi: nat, k: nat)
    requires lo <= k <= hi <= |s| && WhiteSpaceBetween(s, k, hi) && (k > lo ==> !IsWhiteSpace(s[k - 1]))
    ensures End(s, lo, hi) == k
    decreases hi - k
  {
    if k < hi {
      EndAt(s, lo, hi - 1, k);
    }
  }

  /** Trimming recovers `t` from any white-space padding of a trimmed `t`. */
  lemma TrimPadded(a: string, t: string, b: string)
    requires AllWhiteSpace(a) && AllWhiteSpace(b) && Trimmed(t)
    ensures Trim(a + t + b) == t
  {
    var s := a + t + b;
    if t == [] {
      assert WhiteSpaceBetween(s, 0, |s|) by {
        forall i | 0 <= i < |s| ensures IsWhiteSpace(s[i]) {
          if i < |a| { assert s[i] == a[i]; } else { assert s[i] == b[i - |a|]; }
        }
      }
      StartAt(s, 0, |s|);
    } else {
      var e := |a| + |t|;
      assert s[|a|] == t[0] && s[e - 1] == t[|t| - 1];
      assert WhiteSpaceBetween(s, 0, |a|) by {
        forall i | 0 <= i < |a| ensures IsWhiteSpace(s[i]) { assert s[i] == a[i]; }
      }
      assert WhiteSpaceBetween(s, e, |s|) by {
        forall i | e <= i < |s| ensures IsWhiteSpace(s[i]) { assert s[i] == b[i - e]; }
      }
      StartAt(s, 0, |a|);
      EndAt(s, |a|, |s|, e);
      assert s[|a|..e] == t;
    }
  }

  /** Trimming twice is trimming once. */
  lemma TrimIdempotent(s: string)
    ensures Trim(Trim(s)) == Trim(s)
  {
    var r := Trim(s);
    TrimPadded([], r, []);
    assert [] + r + [] == r;
  }

  /** `s.startsWith(prefix)`. */
  predicate StartsWith(s: string, prefix: string) {
    |prefix| <= |s| && s[..|prefix|] == prefix
  }

  /** `s.endsWith(suffix)`. */
  predicate EndsWith(s: string, suffix: string) {
    |suffix| <= |s| && s[|s| - |suffix|..] == suffix
  }

  /** The position of the first occurrence of `c` in `s`. */
  function IndexOf(s: string, c: char): (i: nat)
    requires c in s
    ensures i < |s| && s[i] == c && c !in s[..i]
  {
    if s[0] == c then 0 else
      assert c in s[1..];
      var j := IndexOf(s[1..], c);
      assert s[..j + 1] == [s[0]] + s[1..][..j];
      j + 1
  }

  /** `s.split(sep)` for a one-character separator: the pieces between separators. */
  function Split(s: string, sep: char): (parts: seq<string>)
    ensures |parts| >= 1
    ensures forall k :: 0 <= k < |parts| ==> sep !in parts[k]
    ensures parts[0] == if sep in s then s[..IndexOf(s, sep)] else s
    decreases |s|
  {
    if sep !in s then [s] else
      var i := IndexOf(s, sep);
      [s[..i]] + Split(s[i + 1..], sep)
  }

  /** The second piece of a split is the stretch after the first separator, up to the next one or the end. */
  lemma SecondPiece(s: string, sep: char)
    requires sep in s
    ensures |Split(s, sep)| >= 2
    ensures var i, q := IndexOf(s, sep), Split(s, sep)[1];
      var e := i + 1 + |q|;
      sep !in q && e <= |s| && s[i + 1..e] == q && (e == |s| || s[e] == sep)
  {
    var i := IndexOf(s, sep);
    var rest := s[i + 1..];
    var parts := Split(s, sep);
    assert parts == [s[..i]] + Split(rest, sep);
    var q := Split(rest, sep)[0];
    assert parts[1] == q;
    if sep in rest {
      var j := IndexOf(rest, sep);
      assert rest[j] == s[i + 1 + j];
    }
  }

  /** `parts.join(sep)`. */
  function Join(parts: seq<string>, sep: char): string
    requires |parts| >= 1
  {
    if |parts| == 1 then parts[0] else parts[0] + [sep] + Join(parts[1..], sep)
  }

  /** Joining the pieces of a split gives back the original string. */
  lemma {:induction false} JoinSplit(s: string, sep: char)
    ensures Join(Split(s, sep), sep) == s
    decreases |s|
  {
    if sep in s {
      var i := IndexOf(s, sep);
      var parts := Split(s, sep);
      var rest := Split(s[i + 1..], sep);
      assert parts == [s[..i]] + rest;
      assert parts[1..] == rest;
      assert Join(parts, sep) == s[..i] + [sep] + Join(rest, sep);
      JoinSplit(s[i + 1..], sep);
      assert s == s[..i] + [sep] + s[i + 1..];
    }
  }

  /** Splitting a join of separator-free pieces gives back the pieces. */
  lemma {:induction false} SplitJoin(parts: seq<string>, sep: char)
    requires |parts| >= 1
    requires forall k :: 0 <= k < |parts| ==> sep !in parts[k]
    ensures Split(Join(parts, sep), sep) == parts
  {
    if |parts| > 1 {
      var tail := Join(parts[1..], sep);
      assert Join(parts, sep) == parts[0] + [sep] + tail;
      SplitCons(parts[0], tail, sep);
      SplitJoin(parts[1..], sep);
      assert parts == [parts[0]] + parts[1..];
    } else {
      assert Join(parts, sep) == parts[0];
    }
  }

  /** A separator-free piece followed by the separator splits off as the first piece. */
  lemma SplitCons(p: string, tail: string, sep: char)
    requires sep !in p
    ensures Split(p + [sep] + tail, sep) == [p] + Split(tail, sep)
  {
    var s := p + [sep] + tail;
    assert s[|p|] == sep;
    var i := IndexOf(s, sep);
    assert s[..|p|] == p;
    assert i == |p|;
    assert s[i + 1..] == tail;
  }
}

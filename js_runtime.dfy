/**
 * The JavaScript built-ins the scripts rely on, on strings as sequences of
 * characters: `slice`, `indexOf`, `split`, `substring`, `String(n)` for an
 * integer, and Node's `path.basename`.
 */
module JsRuntime {

  /** `s.slice(0, n)`: the first `n` characters, or the whole string when it is shorter. */
  function Take(s: string, n: nat): (r: string)
    ensures r <= s
    ensures |r| == if n <= |s| then n else |s|
  {
    if n <= |s| then s[..n] else s
  }

  /** `s.substring(start)` for a non-negative `start`: empty when `start` is past the end. */
  function Substring(s: string, start: nat): (r: string)
    ensures start <= |s| ==> r == s[start..]
    ensures start >= |s| ==> r == []
  {
    if start <= |s| then s[start..] else []
  }

  /** `sub` occurs in `s` starting at position `k`. */
  predicate OccursAt(s: string, sub: string, k: int)
  {
    0 <= k && k + |sub| <= |s| && s[k..k + |sub|] == sub
  }

  /** The position `indexOf` starts from: `from` clamped to `0..|s|`. */
  function StartPosition(s: string, from: int): (k: nat)
    ensures k <= |s|
  {
    if from < 0 then 0 else if from > |s| then |s| else from
  }

  /** The first occurrence of `sub` in `s` at or after `k`, or -1. */
  function SearchFrom(s: string, sub: string, k: nat): (r: int)
    requires k <= |s|
    ensures r == -1 || (k <= r && OccursAt(s, sub, r))
    ensures forall j :: k <= j && (r == -1 || j < r) ==> !OccursAt(s, sub, j)
    decreases |s| - k
  {
    if k + |sub| > |s| then -1
    else if s[k..k + |sub|] == sub then k
    else SearchFrom(s, sub, k + 1)
  }

  /** `s.indexOf(sub, from)`. */
  function IndexOf(s: string, sub: string, from: int): (r: int)
    ensures r == -1 || (StartPosition(s, from) <= r && OccursAt(s, sub, r))
    ensures forall j :: StartPosition(s, from) <= j && (r == -1 || j < r) ==> !OccursAt(s, sub, j)
  {
    SearchFrom(s, sub, StartPosition(s, from))
  }

  /** `s.split(sep)[0]` for a non-empty separator: everything before the first `sep`. */
  function SplitHead(s: string, sep: string): (r: string)
    requires sep != []
    ensures r <= s
    ensures r != s ==> OccursAt(s, sep, |r|)
    ensures forall j :: !OccursAt(r, sep, j)
    ensures forall j :: 0 <= j < |r| ==> !OccursAt(s, sep, j)
  {
    var k := IndexOf(s, sep, 0);
    if k == -1 then s
    else
      assert forall j :: OccursAt(s[..k], sep, j) ==> OccursAt(s, sep, j) by {
        forall j | OccursAt(s[..k], sep, j) ensures OccursAt(s, sep, j) {
          assert s[..k][j..j + |sep|] == s[j..j + |sep|];
        }
      }
      s[..k]
  }

  /** `s.split(c)` for a one-character separator; `"".split(c)` is `[""]`. */
  function Split(s: string, c: char): (r: seq<string>)
    ensures |r| >= 1
    ensures forall i :: 0 <= i < |r| ==> c !in r[i]
    decreases |s|
  {
    if s == [] then [[]]
    else
      var rest := Split(s[1..], c);
      if s[0] == c then [[]] + rest else [[s[0]] + rest[0]] + rest[1..]
  }

  /** `pieces.join(c)`. */
  function Join(pieces: seq<string>, c: char): string
    decreases |pieces|
  {
    if pieces == [] then []
    else if |pieces| == 1 then pieces[0]
    else pieces[0] + [c] + Join(pieces[1..], c)
  }

  /** Splitting at the first separator, when the part before it holds none. */
  lemma {:induction false} SplitAtSeparator(x: string, c: char, y: string)
    requires c !in x
    ensures Split(x + [c] + y, c) == [x] + Split(y, c)
    decreases |x|
  {
    if x == [] {
      assert x + [c] + y == [c] + y;
      assert ([c] + y)[1..] == y;
    } else {
      assert (x + [c] + y)[1..] == x[1..] + [c] + y;
      SplitAtSeparator(x[1..], c, y);
      assert [x[0]] + x[1..] == x;
    }
  }

  /** A string without the separator splits into itself alone. */
  lemma {:induction false} SplitWithoutSeparator(x: string, c: char)
    requires c !in x
    ensures Split(x, c) == [x]
    decreases |x|
  {
    if x != [] {
      SplitWithoutSeparator(x[1..], c);
      assert [x[0]] + x[1..] == x;
    }
  }

  /** Joining the pieces of a split gives back the string. */
  lemma {:induction false} JoinSplit(s: string, c: char)
    ensures Join(Split(s, c), c) == s
    decreases |s|
  {
    if s != [] {
      var rest := Split(s[1..], c);
      JoinSplit(s[1..], c);
      if s[0] == c {
        assert Split(s, c) == [[]] + rest;
        assert Join([[]] + rest, c) == [] + [c] + Join(rest, c);
      } else {
        var r := [[s[0]] + rest[0]] + rest[1..];
        assert Split(s, c) == r;
        if |rest| == 1 {
          assert Join(rest, c) == rest[0];
        } else {
          assert Join(rest, c) == rest[0] + [c] + Join(rest[1..], c);
          assert r[1..] == rest[1..];
        }
      }
    }
  }

  /** `path.basename(p)` drops trailing slashes first. */
  function TrimTrailingSlashes(p: string): (r: string)
    ensures r <= p
    ensures r == [] || r[|r| - 1] != '/'
    decreases |p|
  {
    if p != [] && p[|p| - 1] == '/' then TrimTrailingSlashes(p[..|p| - 1]) else p
  }

  /** The characters after the last slash. */
  function LastSegment(p: string): (r: string)
    ensures '/' !in r
    ensures |r| <= |p| && r == p[|p| - |r|..]
    ensures |r| < |p| ==> p[|p| - |r| - 1] == '/'
    decreases |p|
  {
    if p == [] || p[|p| - 1] == '/' then []
    else LastSegment(p[..|p| - 1]) + [p[|p| - 1]]
  }

  /** Node's POSIX `path.basename(p)` without an extension argument. */
  function Basename(p: string): string
  {
    LastSegment(TrimTrailingSlashes(p))
  }

  /** The last segment of `q + '/' + name` is `name` when `name` has no slash. */
  lemma {:induction false} LastSegmentAfterSlash(q: string, name: string)
    requires '/' !in name
    ensures LastSegment(q + "/" + name) == name
    decreases |name|
  {
    var p := q + "/" + name;
    if name != [] {
      var init := name[..|name| - 1];
      assert p[..|p| - 1] == q + "/" + init;
      LastSegmentAfterSlash(q, init);
      assert init + [name[|name| - 1]] == name;
    }
  }

  /** The basename of `dir + '/' + name` is `name` for a slash-free, non-empty name. */
  lemma BasenameOfChild(dir: string, name: string)
    requires name != [] && '/' !in name
    ensures Basename(dir + "/" + name) == name
  {
    var p := dir + "/" + name;
    assert p[|p| - 1] == name[|name| - 1];
    assert TrimTrailingSlashes(p) == p;
    LastSegmentAfterSlash(dir, name);
  }

  function DigitChar(d: nat): (c: char)
    requires d < 10
    ensures '0' <= c <= '9' && c as int - 48 == d
  {
    (48 + d) as char
  }

  function DigitValue(c: char): (d: nat)
    requires '0' <= c <= '9'
    ensures d < 10 && DigitChar(d) == c
  {
    c as int - 48
  }

  /** `String(n)` for a non-negative integer: its decimal digits, without leading zeros. */
  function NatString(n: nat): (r: string)
    ensures |r| >= 1
    ensures forall i :: 0 <= i < |r| ==> '0' <= r[i] <= '9'
    ensures n < 10 <==> |r| == 1
    decreases n
  {
    if n < 10 then [DigitChar(n)] else NatString(n / 10) + [DigitChar(n % 10)]
  }

  /** `String(i)` for an integer. */
  function IntString(i: int): (r: string)
    ensures |r| >= 1
    ensures r[0] == '-' <==> i < 0
  {
    if i < 0 then "-" + NatString(-i) else NatString(i)
  }

  /** The value of a string of decimal digits. */
  function DecimalValue(s: string): nat
    requires forall i :: 0 <= i < |s| ==> '0' <= s[i] <= '9'
    decreases |s|
  {
    if s == [] then 0 else 10 * DecimalValue(s[..|s| - 1]) + DigitValue(s[|s| - 1])
  }

  /** Reading back the decimal form of `n` gives `n`. */
  lemma {:induction false} NatStringRoundTrip(n: nat)
    ensures DecimalValue(NatString(n)) == n
    decreases n
  {
    var r := NatString(n);
    if n >= 10 {
      NatStringRoundTrip(n / 10);
      assert r[..|r| - 1] == NatString(n / 10);
    }
  }

  /** Distinct naturals have distinct decimal forms. */
  lemma NatStringInjective(m: nat, n: nat)
    requires NatString(m) == NatString(n)
    ensures m == n
  {
    NatStringRoundTrip(m);
    NatStringRoundTrip(n);
  }

  /** Distinct integers have distinct decimal forms. */
  lemma IntStringInjective(i: int, j: int)
    requires IntString(i) == IntString(j)
    ensures i == j
  {
    if i < 0 {
      assert NatString(-i) == IntString(i)[1..];
      assert NatString(-j) == IntString(j)[1..];
      NatStringInjective(-i, -j);
    } else {
      NatStringInjective(i, j);
    }
  }
}

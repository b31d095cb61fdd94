/** PHP's byte strings and the handful of string built-ins the plugin relies on
    (explode, implode, trim, strripos, substr), stated with their PHP 8 edge cases. */
module PhpStrings {

  /** PHP strings are sequences of bytes; a byte is written here as a char below U+0100. */
  type Byte = c: char | c < '\U{100}' witness 'a'

  type PhpString = seq<Byte>

  datatype Option<T> = None | Some(value: T)

  // ---------------------------------------------------------------------------
  // explode / implode

  /** How many times byte `c` occurs in `s`. */
  function Occurrences(c: Byte, s: PhpString): (n: nat)
    ensures n > 0 <==> c in s
    decreases |s|
  {
    if |s| == 0 then 0
    else (if s[0] == c then 1 else 0) + Occurrences(c, s[1..])
  }

  /** explode($sep, $s) for a one-byte separator: the pieces between separators,
      always at least one (explode(',', '') is ['']). */
  function Explode(sep: Byte, s: PhpString): (parts: seq<PhpString>)
    ensures |parts| == Occurrences(sep, s) + 1
    ensures forall i :: 0 <= i < |parts| ==> sep !in parts[i]
    decreases |s|
  {
    if |s| == 0 then [[]]
    else
      var rest := Explode(sep, s[1..]);
      assert s == [s[0]] + s[1..];
      if s[0] == sep then [[]] + rest
      else [[s[0]] + rest[0]] + rest[1..]
  }

  /** implode($glue, $parts): the parts joined with the glue between neighbours. */
  function Implode(glue: PhpString, parts: seq<PhpString>): PhpString
  {
    if |parts| == 0 then []
    else if |parts| == 1 then parts[0]
    else parts[0] + glue + Implode(glue, parts[1..])
  }

  /** Joining what explode produced gives back the original string. */
  lemma {:induction false} ImplodeExplode(sep: Byte, s: PhpString)
    ensures Implode([sep], Explode(sep, s)) == s
    decreases |s|
  {
    if |s| > 0 {
      ImplodeExplode(sep, s[1..]);
      var rest := Explode(sep, s[1..]);
      assert s == [s[0]] + s[1..];
      if s[0] == sep {
        assert Explode(sep, s) == [[]] + rest;
        assert ([[]] + rest)[1..] == rest;
        assert Implode([sep], [[]] + rest) == [] + [sep] + Implode([sep], rest);
      } else if |rest| == 1 {
        assert Explode(sep, s) == [[s[0]] + rest[0]];
      } else {
        var parts := [[s[0]] + rest[0]] + rest[1..];
        assert Explode(sep, s) == parts;
        assert parts[1..] == rest[1..];
        assert Implode([sep], parts) == [s[0]] + rest[0] + [sep] + Implode([sep], rest[1..]);
        assert Implode([sep], rest) == rest[0] + [sep] + Implode([sep], rest[1..]);
      }
    }
  }

  /** Every exploded part is made of bytes of the source string. */
  lemma {:induction false} ExplodeKeepsAbsence(sep: Byte, s: PhpString, c: Byte, i: nat)
    requires c !in s
    requires i < |Explode(sep, s)|
    ensures c !in Explode(sep, s)[i]
    decreases |s|
  {
    if |s| > 0 {
      assert s == [s[0]] + s[1..];
      if s[0] == sep {
        if i > 0 {
          ExplodeKeepsAbsence(sep, s[1..], c, i - 1);
        }
      } else if i == 0 {
        ExplodeKeepsAbsence(sep, s[1..], c, 0);
      } else {
        ExplodeKeepsAbsence(sep, s[1..], c, i);
      }
    }
  }

  /** A string without the separator explodes to itself alone. */
  lemma {:induction false} ExplodeWithoutSeparator(sep: Byte, p: PhpString)
    requires sep !in p
    ensures Explode(sep, p) == [p]
    decreases |p|
  {
    if |p| > 0 {
      ExplodeWithoutSeparator(sep, p[1..]);
      assert [p[0]] + p[1..] == p;
    }
  }

  /** Exploding a piece, a separator and a rest splits off exactly that piece. */
  lemma {:induction false} ExplodeCons(sep: Byte, p: PhpString, rest: PhpString)
    requires sep !in p
    ensures Explode(sep, p + [sep] + rest) == [p] + Explode(sep, rest)
    decreases |p|
  {
    var s := p + [sep] + rest;
    if |p| == 0 {
      assert s[1..] == rest;
    } else {
      assert s[1..] == p[1..] + [sep] + rest;
      ExplodeCons(sep, p[1..], rest);
      assert [p[0]] + p[1..] == p;
    }
  }

  /** Exploding what implode joined gives back the parts, when none contains the separator. */
  lemma {:induction false} ExplodeImplode(sep: Byte, parts: seq<PhpString>)
    requires |parts| >= 1
    requires forall i :: 0 <= i < |parts| ==> sep !in parts[i]
    ensures Explode(sep, Implode([sep], parts)) == parts
    decreases |parts|
  {
    if |parts| == 1 {
      ExplodeWithoutSeparator(sep, parts[0]);
    } else {
      ExplodeImplode(sep, parts[1..]);
      ExplodeCons(sep, parts[0], Implode([sep], parts[1..]));
      assert [parts[0]] + parts[1..] == parts;
    }
  }

  /** Appending one part to a non-empty list appends the glue and that part. */
  lemma {:induction false} ImplodeSnoc(glue: PhpString, parts: seq<PhpString>, x: PhpString)
    requires |parts| >= 1
    ensures Implode(glue, parts + [x]) == Implode(glue, parts) + glue + x
    decreases |parts|
  {
    if |parts| > 1 {
      assert (parts + [x])[1..] == parts[1..] + [x];
      ImplodeSnoc(glue, parts[1..], x);
    }
  }

  // ---------------------------------------------------------------------------
  // trim

  /** The default character list of PHP's trim: space, \t, \n, \r, \0 and \x0B. */
  const TrimWhitespace: set<Byte> := {' ', '\t', '\n', '\r', '\0', '\U{B}'}

  function TrimLeft(s: PhpString, cs: set<Byte>): (r: PhpString)
    ensures |r| <= |s| && r == s[|s| - |r|..]
    ensures r == [] || r[0] !in cs
    ensures forall i :: 0 <= i < |s| - |r| ==> s[i] in cs
    decreases |s|
  {
    if |s| > 0 && s[0] in cs then
      assert s == [s[0]] + s[1..];
      TrimLeft(s[1..], cs)
    else s
  }

  function TrimRight(s: PhpString, cs: set<Byte>): (r: PhpString)
    ensures |r| <= |s| && r == s[..|r|]
    ensures r == [] || r[|r| - 1] !in cs
    ensures forall i :: |r| <= i < |s| ==> s[i] in cs
    decreases |s|
  {
    if |s| > 0 && s[|s| - 1] in cs then
      assert s == s[..|s| - 1] + [s[|s| - 1]];
      TrimRight(s[..|s| - 1], cs)
    else s
  }

  /** trim($s, $chars): strip every leading and trailing byte in `cs`. */
  function TrimChars(s: PhpString, cs: set<Byte>): PhpString
  {
    TrimRight(TrimLeft(s, cs), cs)
  }

  /** trim($s) with PHP's default character list. */
  function Trim(s: PhpString): PhpString
  {
    TrimChars(s, TrimWhitespace)
  }

  /** The trimmed string starts and ends outside `cs`. */
  lemma TrimCharsEnds(s: PhpString, cs: set<Byte>)
    ensures var r := TrimChars(s, cs); r == [] || (r[0] !in cs && r[|r| - 1] !in cs)
  {
    var l := TrimLeft(s, cs);
    var r := TrimRight(l, cs);
    if r != [] {
      assert r[0] == l[0];
    }
  }

  /** Trimming introduces no byte the input lacks. */
  lemma TrimCharsKeepsAbsence(s: PhpString, cs: set<Byte>, c: Byte)
    requires c !in s
    ensures c !in TrimChars(s, cs)
  {
    var l := TrimLeft(s, cs);
    var r := TrimRight(l, cs);
    forall j | 0 <= j < |r|
      ensures r[j] != c
    {
      assert r[j] == l[j] == s[|s| - |l| + j];
    }
  }

  lemma {:induction false} TrimLeftSkips(pre: PhpString, x: PhpString, cs: set<Byte>)
    requires forall k :: 0 <= k < |pre| ==> pre[k] in cs
    ensures TrimLeft(pre + x, cs) == TrimLeft(x, cs)
    decreases |pre|
  {
    if |pre| > 0 {
      var s := pre + x;
      assert s[0] in cs;
      assert s[1..] == pre[1..] + x;
      assert forall k :: 0 <= k < |pre[1..]| ==> pre[1..][k] in cs by {
        forall k | 0 <= k < |pre[1..]| ensures pre[1..][k] in cs { assert pre[1..][k] == pre[k + 1]; }
      }
      TrimLeftSkips(pre[1..], x, cs);
    } else {
      assert pre + x == x;
    }
  }

  lemma {:induction false} TrimRightSkips(x: PhpString, post: PhpString, cs: set<Byte>)
    requires forall k :: 0 <= k < |post| ==> post[k] in cs
    ensures TrimRight(x + post, cs) == TrimRight(x, cs)
    decreases |post|
  {
    if |post| > 0 {
      var n := |post| - 1;
      assert (x + post)[..|x| + n] == x + post[..n];
      TrimRightSkips(x, post[..n], cs);
    } else {
      assert x + post == x;
    }
  }

  /** Padding a piece whose ends are outside `cs` with bytes of `cs` is undone by trimming. */
  lemma TrimCharsOfPadded(pre: PhpString, p: PhpString, post: PhpString, cs: set<Byte>)
    requires forall k :: 0 <= k < |pre| ==> pre[k] in cs
    requires forall k :: 0 <= k < |post| ==> post[k] in cs
    requires p == [] || (p[0] !in cs && p[|p| - 1] !in cs)
    ensures TrimChars(pre + p + post, cs) == p
  {
    assert pre + p + post == pre + (p + post);
    TrimLeftSkips(pre, p + post, cs);
    if p != [] {
      assert TrimLeft(p + post, cs) == p + post;
      TrimRightSkips(p, post, cs);
    } else {
      assert p + post == post + [];
      TrimLeftSkips(post, [], cs);
    }
  }

  /** A string whose ends are already outside `cs` is left as it is. */
  lemma TrimCharsUnchanged(s: PhpString, cs: set<Byte>)
    requires s == [] || (s[0] !in cs && s[|s| - 1] !in cs)
    ensures TrimChars(s, cs) == s
  {
    assert [] + s + [] == s;
    TrimCharsOfPadded([], s, [], cs);
  }

  /** A first byte outside `cs` survives trimming as the first byte. */
  lemma TrimCharsKeepsFirst(s: PhpString, cs: set<Byte>)
    requires |s| >= 1 && s[0] !in cs
    ensures |TrimChars(s, cs)| >= 1 && TrimChars(s, cs)[0] == s[0]
  {
    assert TrimLeft(s, cs) == s;
    TrimRightKeepsFirst(s, cs);
  }

  lemma {:induction false} TrimRightKeepsFirst(s: PhpString, cs: set<Byte>)
    requires |s| >= 1 && s[0] !in cs
    ensures |TrimRight(s, cs)| >= 1
    decreases |s|
  {
    if s[|s| - 1] in cs {
      assert |s| > 1;
      TrimRightKeepsFirst(s[..|s| - 1], cs);
    }
  }

  /** Trimming twice is trimming once. */
  lemma TrimCharsIdempotent(s: PhpString, cs: set<Byte>)
    ensures TrimChars(TrimChars(s, cs), cs) == TrimChars(s, cs)
  {
    var r := TrimChars(s, cs);
    TrimCharsEnds(s, cs);
    assert [] + r + [] == r;
    TrimCharsOfPadded([], r, [], cs);
  }

  // ---------------------------------------------------------------------------
  // strripos / substr

  /** strripos($s, $c) for a one-byte needle that has no case: the index of its
      last occurrence, or None where PHP returns false. */
  function LastIndexOf(s: PhpString, c: Byte): (r: Option<nat>)
    ensures r.None? <==> c !in s
    ensures r.Some? ==> r.value < |s| && s[r.value] == c && c !in s[r.value + 1..]
    decreases |s|
  {
    if |s| == 0 then None
    else if s[|s| - 1] == c then Some(|s| - 1)
    else
      var r := LastIndexOf(s[..|s| - 1], c);
      assert s == s[..|s| - 1] + [s[|s| - 1]];
      r
  }

  /** substr($s, $start) for a non-negative start (PHP 8 gives '' past the end). */
  function SubstrFrom(s: PhpString, start: nat): (r: PhpString)
    ensures start <= |s| ==> r == s[start..]
    ensures start > |s| ==> r == []
  {
    if start <= |s| then s[start..] else []
  }

  /** substr($s, 0, $length) for a non-negative length. */
  function SubstrPrefix(s: PhpString, length: nat): (r: PhpString)
    ensures length <= |s| ==> r == s[..length]
    ensures length > |s| ==> r == s
  {
    if length <= |s| then s[..length] else s
  }

  /** substr($s, 0, $n) and substr($s, $n) cut `s` in two at `n`: together they
      rebuild `s`, and the first part holds n bytes, or all of `s` when it is shorter. */
  lemma SubstrSplit(s: PhpString, n: nat)
    ensures SubstrPrefix(s, n) + SubstrFrom(s, n) == s
    ensures |SubstrPrefix(s, n)| == if n <= |s| then n else |s|
  {
    if n <= |s| {
      assert s[..n] + s[n..] == s;
    }
  }
}

/** Small value types and string helpers shared by the rest of the model. */
module Util {

  datatype Option<T> = None | Some(value: T)

  /** JavaScript truthiness of an optional string: present and non-empty. */
  predicate Truthy(s: Option<string>) {
    s.Some? && s.value != ""
  }

  // ---------------------------------------------------------------------------
  // Character classes
  // ---------------------------------------------------------------------------

  predicate IsAsciiUpper(c: char) { 'A' <= c <= 'Z' }
  predicate IsAsciiLower(c: char) { 'a' <= c <= 'z' }
  predicate IsDigit(c: char) { '0' <= c <= '9' }

  /** `[a-z0-9]` */
  predicate IsLowerAlnum(c: char) { IsAsciiLower(c) || IsDigit(c) }

  /** The regular-expression class `\w`: `[A-Za-z0-9_]`. */
  predicate IsWordChar(c: char) { IsAsciiUpper(c) || IsAsciiLower(c) || IsDigit(c) || c == '_' }

  /** The regular-expression class `\s`, which is also the set `String.prototype.trim` strips:
      white space and line terminators of ECMAScript. */
  predicate IsJsSpace(c: char) {
    c == '\t' || c == '\n' || c == '\U{000B}' || c == '\U{000C}' || c == '\r' || c == ' '
    || c == '\U{00A0}' || c == '\U{1680}' || ('\U{2000}' <= c <= '\U{200A}')
    || c == '\U{2028}' || c == '\U{2029}' || c == '\U{202F}' || c == '\U{205F}'
    || c == '\U{3000}' || c == '\U{FEFF}'
  }

  /** Case folding of one character; only ASCII letters are folded. */
  function LowerChar(c: char): (r: char)
    ensures IsAsciiUpper(c) ==> IsAsciiLower(r)
    ensures !IsAsciiUpper(c) ==> r == c
    ensures !IsAsciiUpper(r)
  {
    if IsAsciiUpper(c) then (c as int + 32) as char else c
  }

  /** `s.toLowerCase()` (ASCII letters only). */
  function Lower(s: string): (r: string)
    ensures |r| == |s|
    ensures forall i :: 0 <= i < |s| ==> r[i] == LowerChar(s[i])
  {
    seq(|s|, i requires 0 <= i < |s| => LowerChar(s[i]))
  }

  /** `x || ''` for an optional string: the string, or `''` when it is absent (an empty string
      is falsy but gives `''` as well). */
  function OrEmpty(v: Option<string>): (r: string)
    ensures v.Some? ==> r == v.value
    ensures v.None? ==> r == ""
    ensures Truthy(v) <==> r != ""
  {
    if Truthy(v) then v.value else ""
  }

  // ---------------------------------------------------------------------------
  // Trimming
  // ---------------------------------------------------------------------------

  /** `String.prototype.trim`, first half: drops leading white space. */
  function TrimStart(s: string): (r: string)
    ensures |r| <= |s| && r == s[|s| - |r|..]
    ensures r != [] ==> !IsJsSpace(r[0])
    ensures forall i :: 0 <= i < |s| - |r| ==> IsJsSpace(s[i])
  {
    if s != [] && IsJsSpace(s[0]) then TrimStart(s[1..]) else s
  }

  /** `String.prototype.trim`, second half: drops trailing white space. */
  function TrimEnd(s: string): (r: string)
    ensures |r| <= |s| && r == s[..|r|]
    ensures r != [] ==> !IsJsSpace(r[|r| - 1])
    ensures forall i :: |r| <= i < |s| ==> IsJsSpace(s[i])
  {
    if s != [] && IsJsSpace(s[|s| - 1]) then TrimEnd(s[..|s| - 1]) else s
  }

  /** `String.prototype.trim`: the white space at both ends is gone (`TrimSlice` shows it is
      the slice of `s` in between). */
  function Trim(s: string): (r: string)
    ensures r != [] ==> !IsJsSpace(r[0]) && !IsJsSpace(r[|r| - 1])
  {
    var t := TrimStart(s);
    var r := TrimEnd(t);
    assert r != [] ==> r[0] == t[0];
    r
  }

  /** `r` is the slice of `s` from `k`, with only white space before and after it. */
  predicate TrimmedSlice(s: string, k: nat, r: string) {
    && k + |r| <= |s| && r == s[k..k + |r|]
    && (forall i :: 0 <= i < k ==> IsJsSpace(s[i]))
    && (forall i :: k + |r| <= i < |s| ==> IsJsSpace(s[i]))
  }

  /** Where the trimmed text sits in `s`. */
  lemma TrimSlice(s: string)
    ensures TrimmedSlice(s, |s| - |TrimStart(s)|, Trim(s))
  {
    var t := TrimStart(s);
    TrimmedFrom(s, t, TrimEnd(t), |s| - |t|);
  }

  /** Dropping white space from the front of `s` (giving `t`), then from the back of `t`
      (giving `r`), leaves a slice of `s` with only white space around it. */
  lemma TrimmedFrom(s: string, t: string, r: string, k: nat)
    requires k + |t| == |s| && t == s[k..] && |r| <= |t| && r == t[..|r|]
    requires forall i :: 0 <= i < k ==> IsJsSpace(s[i])
    requires forall i :: |r| <= i < |t| ==> IsJsSpace(t[i])
    ensures TrimmedSlice(s, k, r)
  {
    forall i | k + |r| <= i < |s| ensures IsJsSpace(s[i]) {
      assert s[i] == t[i - k];
    }
  }

  /** Trimming a trimmed string changes nothing. */
  lemma TrimIdempotent(s: string)
    ensures Trim(Trim(s)) == Trim(s)
  {
    var t := Trim(s);
    assert TrimStart(t) == t;
    assert TrimEnd(t) == t;
  }

  /** Trimming keeps a character property of every character. */
  lemma TrimKeeps(s: string, ok: char -> bool)
    requires forall i :: 0 <= i < |s| ==> ok(s[i])
    ensures forall i :: 0 <= i < |Trim(s)| ==> ok(Trim(s)[i])
  {
    var t := TrimStart(s);
    SliceAll(s, |s| - |t|, |s|, ok);
    var r := TrimEnd(t);
    SliceAll(t, 0, |r|, ok);
    assert r == Trim(s);
  }

  /** A slice keeps any property every character had. */
  lemma SliceAll(s: string, a: nat, b: nat, ok: char -> bool)
    requires a <= b <= |s|
    requires forall i :: 0 <= i < |s| ==> ok(s[i])
    ensures forall i :: 0 <= i < b - a ==> ok(s[a..b][i])
  {
    forall i | 0 <= i < b - a ensures ok(s[a..b][i]) {
      assert s[a..b][i] == s[a + i];
    }
  }

  // ---------------------------------------------------------------------------
  // Substrings and index removal
  // ---------------------------------------------------------------------------

  /** `s.includes(sub)`: `sub` occurs in `s` at some offset. */
  predicate Contains(s: string, sub: string) {
    sub <= s || (s != [] && Contains(s[1..], sub))
  }

  /** `sub` occurs in `s` when it is the slice of `s` at some offset `k`. */
  lemma {:induction false} ContainsAt(s: string, sub: string, k: nat)
    requires k + |sub| <= |s| && s[k..k + |sub|] == sub
    ensures Contains(s, sub)
  {
    if k == 0 {
      assert sub <= s;
    } else {
      assert s[1..][k - 1..k - 1 + |sub|] == sub;
      ContainsAt(s[1..], sub, k - 1);
    }
  }

  /** `xs.filter((_, i) => i !== idx)`: drops the element at `idx`, if there is one. */
  function RemoveAt<T>(xs: seq<T>, idx: int): (r: seq<T>)
    ensures 0 <= idx < |xs| ==> |r| == |xs| - 1
    ensures !(0 <= idx < |xs|) ==> r == xs
    ensures forall i :: 0 <= i < idx && i < |r| ==> r[i] == xs[i]
    ensures forall i :: 0 <= idx <= i < |r| ==> r[i] == xs[i + 1]
  {
    if xs == [] then []
    else if idx == 0 then xs[1..]
    else [xs[0]] + RemoveAt(xs[1..], idx - 1)
  }

  /** `xs.filter(keep)`: the elements satisfying `keep`, in their original order. */
  function Filter<T(!new)>(xs: seq<T>, keep: T -> bool): (r: seq<T>)
    ensures |r| <= |xs|
    ensures forall i :: 0 <= i < |r| ==> keep(r[i])
    ensures forall x :: multiset(r)[x] == if keep(x) then multiset(xs)[x] else 0
  {
    if xs == [] then []
    else
      assert xs == [xs[0]] + xs[1..];
      (if keep(xs[0]) then [xs[0]] else []) + Filter(xs[1..], keep)
  }

  /** Filtering a sequence that starts with `x`. */
  lemma FilterCons<T(!new)>(x: T, xs: seq<T>, keep: T -> bool)
    ensures Filter([x] + xs, keep) == (if keep(x) then [x] else []) + Filter(xs, keep)
  {
    assert ([x] + xs)[1..] == xs;
  }

  /** `sub` is `xs` with some elements left out, the rest in their original order. */
  predicate IsSubsequence<T(==)>(sub: seq<T>, xs: seq<T>)
    decreases |xs|
  {
    if sub == [] then true
    else if xs == [] then false
    else (sub[0] == xs[0] && IsSubsequence(sub[1..], xs[1..])) || IsSubsequence(sub, xs[1..])
  }

  /** A prefix of rejected elements contributes nothing to the filter. */
  lemma {:induction false} FilterSkipsRejected<T(!new)>(xs: seq<T>, n: nat, keep: T -> bool)
    requires n <= |xs|
    requires forall i :: 0 <= i < n ==> !keep(xs[i])
    ensures Filter(xs, keep) == Filter(xs[n..], keep)
  {
    if n > 0 {
      var t := xs[1..];
      assert !keep(xs[0]);
      assert Filter(xs, keep) == Filter(t, keep);
      FilterSkipsRejected(t, n - 1, keep);
      assert t[n - 1..] == xs[n..];
    }
  }

  /** Filtering with a weaker test first changes nothing. */
  lemma {:induction false} FilterFilter<T(!new)>(xs: seq<T>, first: T -> bool, keep: T -> bool)
    requires forall x :: keep(x) ==> first(x)
    ensures Filter(Filter(xs, first), keep) == Filter(xs, keep)
  {
    if xs != [] {
      var rest := Filter(xs[1..], first);
      FilterFilter(xs[1..], first, keep);
      if first(xs[0]) {
        assert Filter(xs, first) == [xs[0]] + rest;
        FilterCons(xs[0], rest, keep);
      } else {
        assert Filter(xs, first) == rest;
        assert !keep(xs[0]);
      }
    }
  }

  /** Filtering keeps the order of what it keeps. */
  lemma {:induction false} FilterIsSubsequence<T(!new)>(xs: seq<T>, keep: T -> bool)
    ensures IsSubsequence(Filter(xs, keep), xs)
  {
    if xs != [] {
      var rest := Filter(xs[1..], keep);
      FilterIsSubsequence(xs[1..], keep);
      if keep(xs[0]) {
        assert Filter(xs, keep) == [xs[0]] + rest;
        assert Filter(xs, keep)[1..] == rest;
      } else {
        assert Filter(xs, keep) == rest;
      }
    }
  }

  /** Drops the trailing run of `c` (a `c+$` removal). */
  function DropTrailing(s: string, c: char): (r: string)
    ensures |r| <= |s| && r == s[..|r|]
    ensures r != [] ==> r[|r| - 1] != c
    ensures forall i :: |r| <= i < |s| ==> s[i] == c
  {
    if s != [] && s[|s| - 1] == c then DropTrailing(s[..|s| - 1], c) else s
  }

  // ---------------------------------------------------------------------------
  // Hyphen runs
  // ---------------------------------------------------------------------------

  predicate NoDoubleHyphen(s: string) {
    forall i :: 0 <= i < |s| - 1 ==> !(s[i] == '-' && s[i + 1] == '-')
  }

  /** Drops leading hyphens (the `^-+` alternative). */
  function DropLeadingHyphens(s: string): (r: string)
    ensures |r| <= |s| && r == s[|s| - |r|..]
    ensures r != [] ==> r[0] != '-'
    ensures forall i :: 0 <= i < |s| - |r| ==> s[i] == '-'
  {
    if s != [] && s[0] == '-' then DropLeadingHyphens(s[1..]) else s
  }

  /** `.replace(/-{2,}/g, '-')`, and equally `.replace(/-+/g, '-')`: every run of hyphens
      becomes one. */
  function CollapseHyphens(s: string): (r: string)
    ensures NoDoubleHyphen(r)
    ensures NoDoubleHyphen(s) ==> r == s
    ensures r != [] <==> s != []
    ensures r != [] ==> (r[0] == '-' <==> s[0] == '-')
    decreases |s|
  {
    if s == [] then []
    else
      var u := s[1..];
      // A leading hyphen absorbs the hyphens that follow it.
      var t := if s[0] == '-' then DropLeadingHyphens(u) else u;
      var c := CollapseHyphens(t);
      var r := [s[0]] + c;
      NoDoubleCons(s[0], c);
      assert NoDoubleHyphen(s) ==> r == s by {
        if NoDoubleHyphen(s) {
          NoDoubleTail(s);
          assert [s[0]] + u == s;
        }
      }
      r
  }

  /** The tail of a text without a double hyphen has none, and no hyphen starts it after a
      leading hyphen. */
  lemma NoDoubleTail(s: string)
    requires s != [] && NoDoubleHyphen(s)
    ensures NoDoubleHyphen(s[1..])
    ensures s[0] == '-' ==> DropLeadingHyphens(s[1..]) == s[1..]
  {
    var u := s[1..];
    forall i | 0 <= i < |u| - 1 ensures !(u[i] == '-' && u[i + 1] == '-') {
      assert u[i] == s[i + 1] && u[i + 1] == s[i + 2];
    }
    if s[0] == '-' && u != [] {
      assert u[0] == s[1];
    }
  }

  /** Putting a character in front of a text without a double hyphen makes none, unless both
      are hyphens. */
  lemma NoDoubleCons(x: char, c: string)
    requires NoDoubleHyphen(c)
    requires x == '-' ==> c == [] || c[0] != '-'
    ensures NoDoubleHyphen([x] + c)
  {
    var r := [x] + c;
    forall i | 0 <= i < |r| - 1 ensures !(r[i] == '-' && r[i + 1] == '-') {
      if i > 0 {
        assert r[i] == c[i - 1] && r[i + 1] == c[i];
      }
    }
  }

  predicate IsHyphen(c: char) { c == '-' }

  /** Drops every character `sep` accepts that directly follows another one `sep` accepts, so
      that each maximal run of them shrinks to its last character. */
  function Squeeze(s: string, sep: char -> bool): (r: string)
    ensures |r| <= |s|
    decreases |s|
  {
    if |s| < 2 then s
    else if sep(s[0]) && sep(s[1]) then Squeeze(s[1..], sep)
    else [s[0]] + Squeeze(s[1..], sep)
  }

  /** A run of `sep` characters in front of `t` squeezes to the run's last character. */
  lemma {:induction false} SqueezeRun(s: string, t: string, sep: char -> bool)
    requires |t| < |s| && t == s[|s| - |t|..]
    requires forall i :: 0 <= i < |s| - |t| ==> sep(s[i])
    requires t != [] ==> !sep(t[0])
    ensures Squeeze(s, sep) == [s[|s| - |t| - 1]] + Squeeze(t, sep)
    decreases |s|
  {
    if |s| - |t| == 1 {
      assert s[1..] == t;
      if |s| >= 2 {
        assert s[1] == t[0];
      }
    } else {
      var u := s[1..];
      assert u[|u| - |t|..] == t;
      SqueezeRun(u, t, sep);
      assert u[|u| - |t| - 1] == s[|s| - |t| - 1];
    }
  }

  /** Squeezing drops only `sep` characters, so it keeps everything a filter rejecting them
      keeps, in order. */
  lemma {:induction false} SqueezeKeepsFilter(s: string, sep: char -> bool, keep: char -> bool)
    requires forall c :: sep(c) ==> !keep(c)
    ensures Filter(Squeeze(s, sep), keep) == Filter(s, keep)
    decreases |s|
  {
    if |s| >= 2 {
      SqueezeKeepsFilter(s[1..], sep, keep);
      if !(sep(s[0]) && sep(s[1])) {
        FilterCons(s[0], Squeeze(s[1..], sep), keep);
      }
    }
  }

  /** Collapsing hyphen runs is squeezing the hyphens: an independent reference definition. */
  lemma {:induction false} CollapseIsSqueeze(s: string)
    ensures CollapseHyphens(s) == Squeeze(s, IsHyphen)
    decreases |s|
  {
    if s != [] {
      if s[0] != '-' {
        CollapseIsSqueeze(s[1..]);
        if |s| == 1 {
          assert s == [s[0]];
        }
      } else {
        HyphenRun(s);
        CollapseIsSqueeze(DropLeadingHyphens(s[1..]));
      }
    }
  }

  /** A leading hyphen run squeezes to one hyphen. */
  lemma HyphenRun(s: string)
    requires s != [] && s[0] == '-'
    ensures Squeeze(s, IsHyphen) == ['-'] + Squeeze(DropLeadingHyphens(s[1..]), IsHyphen)
  {
    var u := s[1..];
    var t := DropLeadingHyphens(u);
    assert t == s[|s| - |t|..] by {
      assert u[|u| - |t|..] == s[|s| - |t|..];
    }
    forall i | 0 <= i < |s| - |t| ensures IsHyphen(s[i]) {
      if i > 0 {
        assert s[i] == u[i - 1];
      }
    }
    SqueezeRun(s, t, IsHyphen);
  }

  /** Collapsing keeps every character other than the hyphen, in order. */
  lemma CollapseKeepsFilter(s: string, keep: char -> bool)
    requires !keep('-')
    ensures Filter(CollapseHyphens(s), keep) == Filter(s, keep)
  {
    CollapseIsSqueeze(s);
    SqueezeKeepsFilter(s, IsHyphen, keep);
  }

  /** Collapsing keeps a hyphen at the end, and only one that was there. */
  lemma {:induction false} CollapseLast(s: string)
    requires s != []
    ensures var r := CollapseHyphens(s); r[|r| - 1] == '-' <==> s[|s| - 1] == '-'
    decreases |s|
  {
    var r := CollapseHyphens(s);
    if s[0] == '-' {
      var u := s[1..];
      var t := DropLeadingHyphens(u);
      assert r == ['-'] + CollapseHyphens(t);
      if t != [] {
        CollapseLast(t);
        assert t[|t| - 1] == u[|u| - 1] == s[|s| - 1];
      } else if u != [] {
        assert u[|u| - 1] == s[|s| - 1];
      }
    } else if |s| > 1 {
      assert r == [s[0]] + CollapseHyphens(s[1..]);
      CollapseLast(s[1..]);
    }
  }

  /** Collapsing introduces no character but the hyphen. */
  lemma {:induction false} CollapseKeeps(s: string, ok: char -> bool)
    requires ok('-')
    requires forall i :: 0 <= i < |s| ==> ok(s[i])
    ensures forall i :: 0 <= i < |CollapseHyphens(s)| ==> ok(CollapseHyphens(s)[i])
    decreases |s|
  {
    if s != [] {
      if s[0] == '-' {
        var t := DropLeadingHyphens(s[1..]);
        assert forall i :: 0 <= i < |t| ==> t[i] == s[|s| - |t| + i];
        CollapseKeeps(t, ok);
      } else {
        CollapseKeeps(s[1..], ok);
      }
    }
  }

  // ---------------------------------------------------------------------------
  // File paths
  // ---------------------------------------------------------------------------

  /** The index of the last `c` in `s`, or -1. */
  function LastIndexOf(s: string, c: char): (r: int)
    ensures -1 <= r < |s|
    ensures r >= 0 ==> s[r] == c
    ensures forall i :: r < i < |s| ==> s[i] != c
  {
    if s == [] then -1
    else if s[|s| - 1] == c then |s| - 1
    else LastIndexOf(s[..|s| - 1], c)
  }

  /** The last `c` is at `k` when `s[k]` is `c` and none follows. */
  lemma LastIndexAt(s: string, c: char, k: nat)
    requires k < |s| && s[k] == c
    requires forall i :: k < i < |s| ==> s[i] != c
    ensures LastIndexOf(s, c) == k
  {
  }

  /** The last component of a `/`-separated path, trailing slashes ignored. */
  function Basename(path: string): (r: string)
    ensures forall i :: 0 <= i < |r| ==> r[i] != '/'
    ensures var p := DropTrailing(path, '/');
            |r| <= |p| && r == p[|p| - |r|..] && (|r| == |p| || p[|p| - |r| - 1] == '/')
    ensures (forall i :: 0 <= i < |path| ==> path[i] != '/') ==> r == path
  {
    var p := DropTrailing(path, '/');
    var k := LastIndexOf(p, '/');
    assert (forall i :: 0 <= i < |path| ==> path[i] != '/') ==> p == path;
    p[k + 1..]
  }

  /** A slash-free stem, a dot and a slash-free, dot-free suffix: a name that is its own base
      name and whose last dot is the joining one. */
  lemma DotJoin(stem: string, ext: string)
    requires forall i :: 0 <= i < |stem| ==> stem[i] != '/'
    requires forall i :: 0 <= i < |ext| ==> ext[i] != '.' && ext[i] != '/'
    ensures var n := stem + ['.'] + ext;
            Basename(n) == n && LastIndexOf(n, '.') == |stem| && n[|stem| + 1..] == ext
  {
    var n := stem + ['.'] + ext;
    forall i | 0 <= i < |n| ensures n[i] != '/' {
      if i < |stem| {
        assert n[i] == stem[i];
      } else if i > |stem| {
        assert n[i] == ext[i - |stem| - 1];
      }
    }
    forall i | |stem| < i < |n| ensures n[i] != '.' {
      assert n[i] == ext[i - |stem| - 1];
    }
    LastIndexAt(n, '.', |stem|);
    assert n[|stem| + 1..] == ext;
  }

  // ---------------------------------------------------------------------------
  // Decimal and hexadecimal rendering
  // ---------------------------------------------------------------------------

  function DigitChar(d: nat): (c: char)
    requires d < 10
    ensures IsDigit(c)
  {
    ('0' as int + d) as char
  }

  function DigitValue(c: char): nat
    requires IsDigit(c)
  {
    c as int - '0' as int
  }

  /** The decimal rendering of a natural number, as JavaScript and PHP print integers. */
  function Decimal(n: nat): (r: string)
    ensures |r| > 0
    ensures forall i :: 0 <= i < |r| ==> IsDigit(r[i])
    ensures |r| > 1 ==> r[0] != '0'
  {
    if n < 10 then [DigitChar(n)] else Decimal(n / 10) + [DigitChar(n % 10)]
  }

  /** Reads back a string of decimal digits. */
  function DecimalValue(s: string): nat
    requires forall i :: 0 <= i < |s| ==> IsDigit(s[i])
  {
    if s == [] then 0 else DecimalValue(s[..|s| - 1]) * 10 + DigitValue(s[|s| - 1])
  }

  lemma {:induction false} DecimalRoundTrip(n: nat)
    ensures DecimalValue(Decimal(n)) == n
  {
    if n >= 10 {
      DecimalRoundTrip(n / 10);
      var s := Decimal(n);
      assert s[..|s| - 1] == Decimal(n / 10);
    }
  }

  /** An octet, as PHP's `random_bytes` produces them. */
  newtype Byte = x: int | 0 <= x < 256

  function HexChar(d: nat): (c: char)
    requires d < 16
    ensures IsDigit(c) || ('a' <= c <= 'f')
  {
    if d < 10 then DigitChar(d) else ('a' as int + d - 10) as char
  }

  predicate IsLowerHex(c: char) { IsDigit(c) || ('a' <= c <= 'f') }

  function HexValue(c: char): nat
    requires IsLowerHex(c)
  {
    if IsDigit(c) then DigitValue(c) else c as int - 'a' as int + 10
  }

  /** PHP's `bin2hex`: two lower-case hex digits per byte, high nibble first. */
  function Bin2Hex(bytes: seq<Byte>): (r: string)
    ensures |r| == 2 * |bytes|
    ensures forall i :: 0 <= i < |r| ==> IsLowerHex(r[i])
  {
    if bytes == [] then []
    else [HexChar(bytes[0] as int / 16), HexChar(bytes[0] as int % 16)] + Bin2Hex(bytes[1..])
  }

  /** Reads back a string produced by `Bin2Hex`. */
  function Hex2Bin(s: string): seq<Byte>
    requires |s| % 2 == 0
    requires forall i :: 0 <= i < |s| ==> IsLowerHex(s[i])
  {
    if s == [] then [] else [(HexValue(s[0]) * 16 + HexValue(s[1])) as Byte] + Hex2Bin(s[2..])
  }

  lemma HexCharValue(d: nat)
    requires d < 16
    ensures HexValue(HexChar(d)) == d
  {
  }

  lemma ByteRoundTrip(b: Byte)
    ensures (HexValue(HexChar(b as int / 16)) * 16 + HexValue(HexChar(b as int % 16))) as Byte == b
  {
    var n := b as int;
    HexCharValue(n / 16);
    HexCharValue(n % 16);
  }

  lemma {:induction false} HexRoundTrip(bytes: seq<Byte>)
    ensures Hex2Bin(Bin2Hex(bytes)) == bytes
  {
    if bytes != [] {
      HexRoundTrip(bytes[1..]);
      ByteRoundTrip(bytes[0]);
      var s := Bin2Hex(bytes);
      assert s[2..] == Bin2Hex(bytes[1..]);
    }
  }
}

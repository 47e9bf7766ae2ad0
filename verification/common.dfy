/** Shared vocabulary of the storefront model: optional values, JavaScript
    truthiness of optional strings, and the few `String.prototype` methods the
    components rely on (`includes`, `startsWith`, `trim`). */
module Common {

  /** A value that may be `null`/`undefined` in the components. */
  datatype Option<+T> = None | Some(value: T) {

    /** `x ?? default` */
    function GetOr(default: T): T {
      match this
      case Some(v) => v
      case None => default
    }
  }

  /** JavaScript truthiness of a string that may be missing: `null`,
      `undefined` and `''` are falsy, every other string is truthy. */
  predicate Truthy(o: Option<string>) {
    o.Some? && o.value != ""
  }

  /** `s.startsWith(prefix)`: `s` is `prefix` followed by the rest of `s`,
      character for character. */
  predicate StartsWith(s: string, prefix: string)
    ensures StartsWith(s, prefix) ==> |prefix| <= |s| && s == prefix + s[|prefix|..]
    ensures StartsWith(s, prefix) ==> forall i :: 0 <= i < |prefix| ==> i < |s| && s[i] == prefix[i]
    ensures !StartsWith(s, prefix) ==> |prefix| > |s| || exists i :: 0 <= i < |prefix| && i < |s| && s[i] != prefix[i]
  {
    |prefix| <= |s| && s[..|prefix|] == prefix
  }

  /** `s.includes(sub)`, computed by scanning: `sub` is a prefix of some
      suffix of `s`. An empty `sub` is included in every string. */
  predicate Includes(s: string, sub: string)
    ensures sub == "" ==> Includes(s, sub)
    ensures StartsWith(s, sub) ==> Includes(s, sub)
    ensures Includes(s, sub) ==> |sub| <= |s|
    decreases |s|
  {
    StartsWith(s, sub) || (|s| > 0 && Includes(s[1..], sub))
  }

  /** Reference definition of an occurrence: `sub` sits in `s` at index `i`. */
  ghost predicate OccursAt(s: string, sub: string, i: int) {
    0 <= i && i + |sub| <= |s| && s[i..i + |sub|] == sub
  }

  ghost predicate Occurs(s: string, sub: string) {
    exists i :: OccursAt(s, sub, i)
  }

  /** The scanning definition agrees with the reference definition. */
  lemma {:induction false} IncludesIffOccurs(s: string, sub: string)
    ensures Includes(s, sub) <==> Occurs(s, sub)
    decreases |s|
  {
    if StartsWith(s, sub) {
      assert OccursAt(s, sub, 0);
    } else if |s| > 0 {
      IncludesIffOccurs(s[1..], sub);
      if Includes(s[1..], sub) {
        var i :| OccursAt(s[1..], sub, i);
        assert s[1..][i..i + |sub|] == s[i + 1..i + 1 + |sub|];
        assert OccursAt(s, sub, i + 1);
      }
      if Occurs(s, sub) {
        var i :| OccursAt(s, sub, i);
        assert i != 0;
        assert s[1..][i - 1..i - 1 + |sub|] == s[i..i + |sub|];
        assert OccursAt(s[1..], sub, i - 1);
      }
    }
  }

  /** A string that lacks one of the characters of `sub` cannot include it. */
  lemma MissingCharExcludes(s: string, sub: string, c: char)
    requires c in sub && c !in s
    ensures !Includes(s, sub)
  {
    IncludesIffOccurs(s, sub);
  }

  /** The characters `String.prototype.trim` removes: the ECMAScript
      WhiteSpace (TAB, VT, FF, ZWNBSP and every space separator) and
      LineTerminator (LF, CR, LS, PS) code points. */
  predicate IsJsWhitespace(c: char) {
    var n := c as int;
    n == 0x09 || n == 0x0A || n == 0x0B || n == 0x0C || n == 0x0D
    || n == 0x20 || n == 0xA0 || n == 0x1680 || (0x2000 <= n <= 0x200A)
    || n == 0x2028 || n == 0x2029 || n == 0x202F || n == 0x205F
    || n == 0x3000 || n == 0xFEFF
  }

  /** Every character of `s` is whitespace (the empty string included). */
  predicate Blank(s: string) {
    forall i :: 0 <= i < |s| ==> IsJsWhitespace(s[i])
  }

  /** Removes leading whitespace: the result is a suffix of `s` whose first
      character, if any, is not whitespace, and everything dropped was. */
  function TrimStart(s: string): (r: string)
    ensures |r| <= |s| && r == s[|s| - |r|..]
    ensures Blank(s[..|s| - |r|])
    ensures |r| > 0 ==> !IsJsWhitespace(r[0])
    decreases |s|
  {
    if |s| > 0 && IsJsWhitespace(s[0]) then
      var r := TrimStart(s[1..]);
      assert s[1..][|s| - 1 - |r|..] == s[|s| - |r|..];
      assert s[..|s| - |r|] == [s[0]] + s[1..][..|s| - 1 - |r|];
      r
    else s
  }

  /** Removes trailing whitespace: the result is a prefix of `s` whose last
      character, if any, is not whitespace, and everything dropped was. */
  function TrimEnd(s: string): (r: string)
    ensures |r| <= |s| && r == s[..|r|]
    ensures Blank(s[|r|..])
    ensures |r| > 0 ==> !IsJsWhitespace(r[|r| - 1])
    decreases |s|
  {
    if |s| > 0 && IsJsWhitespace(s[|s| - 1]) then
      var r := TrimEnd(s[..|s| - 1]);
      assert s[|r|..] == s[..|s| - 1][|r|..] + [s[|s| - 1]];
      r
    else s
  }

  /** `s.trim()`: empty exactly for the strings made only of whitespace. */
  function Trim(s: string): (r: string)
    ensures r == "" <==> Blank(s)
  {
    TrimEmptyIffBlank(s);
    TrimEnd(TrimStart(s))
  }

  /** Trimming both ends leaves nothing exactly when there was nothing but
      whitespace. */
  lemma TrimEmptyIffBlank(s: string)
    ensures TrimEnd(TrimStart(s)) == "" <==> Blank(s)
  {
    var t := TrimStart(s);
    var d := |s| - |t|;
    if TrimEnd(t) == "" {
      assert t[0..] == t;
      assert s[..d] == s;
    }
    if Blank(s) {
      BlankSuffix(s, d);
    }
  }

  /** What is left of a blank string after dropping a prefix is blank. */
  lemma BlankSuffix(s: string, k: int)
    requires Blank(s) && 0 <= k <= |s|
    ensures Blank(s[k..])
  {
    forall i | 0 <= i < |s| - k ensures IsJsWhitespace(s[k..][i]) {
      assert s[k..][i] == s[k + i];
    }
  }

  /** `array.filter(keep)`: the elements that satisfy `keep`, in order. */
  function Filter<T(!new)>(items: seq<T>, keep: T -> bool): (r: seq<T>)
    ensures |r| <= |items|
    ensures forall x :: x in r <==> x in items && keep(x)
    ensures forall i :: 0 <= i < |r| ==> keep(r[i])
  {
    if |items| == 0 then []
    else if keep(items[0]) then [items[0]] + Filter(items[1..], keep)
    else Filter(items[1..], keep)
  }

  /** Filtering keeps the order: it distributes over concatenation. */
  lemma {:induction false} FilterAppend<T(!new)>(a: seq<T>, b: seq<T>, keep: T -> bool)
    ensures Filter(a + b, keep) == Filter(a, keep) + Filter(b, keep)
    decreases |a|
  {
    if |a| > 0 {
      assert (a + b)[1..] == a[1..] + b;
      FilterAppend(a[1..], b, keep);
    } else {
      assert a + b == b;
    }
  }

  /** Filtering twice is filtering once by both conditions. */
  lemma {:induction false} FilterTwice<T(!new)>(items: seq<T>, p: T -> bool,
                                                q: T -> bool, both: T -> bool)
    requires forall x :: both(x) == (p(x) && q(x))
    ensures Filter(Filter(items, p), q) == Filter(items, both)
    decreases |items|
  {
    if |items| > 0 {
      FilterTwice(items[1..], p, q, both);
    }
  }

  /** When every item satisfies `keep`, the filter returns the list
      unchanged. */
  lemma FilterKeepsAll<T(!new)>(items: seq<T>, keep: T -> bool)
    requires forall i :: 0 <= i < |items| ==> keep(items[i])
    ensures Filter(items, keep) == items
  {
    if |items| > 0 {
      FilterKeepsAll(items[1..], keep);
    }
  }
}

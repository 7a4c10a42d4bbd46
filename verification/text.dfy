/** Character classes and the string operations the cache uses: lowering,
    whitespace removal, joining, and splitting on whitespace. */
module Text {

  /** Unicode's White_Space property, the class `char::is_whitespace` tests. */
  predicate IsWhitespace(c: char) {
    var n := c as int;
    (9 <= n <= 13) || n == 32 || n == 0x85 || n == 0xA0 || n == 0x1680
    || (0x2000 <= n <= 0x200A) || n == 0x2028 || n == 0x2029
    || n == 0x202F || n == 0x205F || n == 0x3000
  }

  predicate IsUpper(c: char) {
    'A' <= c <= 'Z'
  }

  predicate NoWhitespace(s: string) {
    forall i :: 0 <= i < |s| ==> !IsWhitespace(s[i])
  }

  predicate AllWhitespace(s: string) {
    forall i :: 0 <= i < |s| ==> IsWhitespace(s[i])
  }

  predicate NoUpper(s: string) {
    forall i :: 0 <= i < |s| ==> !IsUpper(s[i])
  }

  /** ASCII lower-casing of one character; every other character is kept. */
  function LowerChar(c: char): (r: char)
    ensures !IsUpper(r)
    ensures IsWhitespace(r) == IsWhitespace(c)
    ensures !IsUpper(c) ==> r == c
  {
    if IsUpper(c) then (c as int + 32) as char else c
  }

  function Lower(s: string): (r: string)
    ensures |r| == |s| && NoUpper(r)
    ensures forall i :: 0 <= i < |s| ==> r[i] == LowerChar(s[i])
  {
    seq(|s|, i requires 0 <= i < |s| => LowerChar(s[i]))
  }

  /** `s` with every whitespace character removed, the rest kept in order. */
  function Strip(s: string): (r: string)
    ensures NoWhitespace(r)
    ensures |r| <= |s|
    ensures NoUpper(s) ==> NoUpper(r)
    ensures NoWhitespace(s) ==> r == s
  {
    if s == [] then []
    else (if IsWhitespace(s[0]) then [] else [s[0]]) + Strip(s[1..])
  }

  lemma {:induction false} StripAppend(a: string, b: string)
    ensures Strip(a + b) == Strip(a) + Strip(b)
  {
    if a != [] {
      assert (a + b)[0] == a[0] && (a + b)[1..] == a[1..] + b;
      StripAppend(a[1..], b);
      var head := if IsWhitespace(a[0]) then [] else [a[0]];
      assert Strip(a + b) == head + Strip(a[1..] + b);
      assert Strip(a) == head + Strip(a[1..]);
      assert head + (Strip(a[1..]) + Strip(b)) == (head + Strip(a[1..])) + Strip(b);
    } else {
      assert a + b == b;
    }
  }

  lemma {:induction false} StripAllWhitespace(s: string)
    ensures Strip(s) == [] <==> AllWhitespace(s)
  {
    if s != [] {
      StripAllWhitespace(s[1..]);
      if AllWhitespace(s) {
        assert AllWhitespace(s[1..]);
      } else if IsWhitespace(s[0]) {
        assert !AllWhitespace(s[1..]) by {
          var i :| 0 <= i < |s| && !IsWhitespace(s[i]);
          assert s[1..][i - 1] == s[i];
        }
      }
    }
  }

  /** Lower-case, then drop whitespace: the normal form of a project name. */
  function Normalize(s: string): (r: string)
    ensures NoWhitespace(r) && NoUpper(r)
  {
    Strip(Lower(s))
  }

  /** The parts with `sep` between consecutive ones (Rust's `join`). */
  function Join(parts: seq<string>, sep: string): (r: string)
    ensures parts == [] ==> r == []
    ensures parts != [] ==> parts[0] <= r
    ensures forall i :: 0 <= i < |parts| ==> |parts[i]| <= |r|
  {
    if |parts| == 0 then []
    else if |parts| == 1 then parts[0]
    else parts[0] + sep + Join(parts[1..], sep)
  }

  function NormalizeAll(parts: seq<string>): (r: seq<string>)
    ensures |r| == |parts|
  {
    seq(|parts|, i requires 0 <= i < |parts| => Normalize(parts[i]))
  }

  lemma LowerAppend(a: string, b: string)
    ensures Lower(a + b) == Lower(a) + Lower(b)
  {
    assert forall i :: 0 <= i < |a + b| ==> Lower(a + b)[i] == (Lower(a) + Lower(b))[i];
  }

  /** Normalising distributes over concatenation. */
  lemma NormalizeAppend(a: string, b: string)
    ensures Normalize(a + b) == Normalize(a) + Normalize(b)
  {
    LowerAppend(a, b);
    StripAppend(Lower(a), Lower(b));
  }

  /** Normalising a dotted join normalises each part: the separator is
      neither whitespace nor an upper-case letter. */
  lemma {:induction false} NormalizeJoin(parts: seq<string>)
    ensures Normalize(Join(parts, ".")) == Join(NormalizeAll(parts), ".")
  {
    if |parts| > 1 {
      var rest := Join(parts[1..], ".");
      JoinCons(parts, ".");
      NormalizeAppend(parts[0], "." + rest);
      NormalizeAppend(".", rest);
      NormalizeDot();
      NormalizeJoin(parts[1..]);
      NormalizeAllCons(parts);
      JoinCons(NormalizeAll(parts), ".");
    }
  }

  lemma JoinCons(parts: seq<string>, sep: string)
    requires |parts| > 1
    ensures Join(parts, sep) == parts[0] + (sep + Join(parts[1..], sep))
  {
  }

  lemma NormalizeAllCons(parts: seq<string>)
    requires parts != []
    ensures NormalizeAll(parts)[0] == Normalize(parts[0])
    ensures NormalizeAll(parts)[1..] == NormalizeAll(parts[1..])
  {
  }

  lemma NormalizeDot()
    ensures Normalize(".") == "."
  {
    assert Lower(".") == ".";
    assert NoWhitespace(".");
  }

  /** The end of the run of non-whitespace characters that starts at `i`. */
  function WordEnd(s: string, i: nat): (n: nat)
    requires i <= |s|
    ensures i <= n <= |s|
    ensures forall k :: i <= k < n ==> !IsWhitespace(s[k])
    ensures n < |s| ==> IsWhitespace(s[n])
    decreases |s| - i
  {
    if i == |s| || IsWhitespace(s[i]) then i else WordEnd(s, i + 1)
  }

  /** The maximal runs of non-whitespace characters of `s`, in order
      (Rust's `split_whitespace`). */
  function Tokens(s: string): (r: seq<string>)
    ensures forall i :: 0 <= i < |r| ==> r[i] != [] && NoWhitespace(r[i])
    decreases |s|
  {
    if s == [] then []
    else if IsWhitespace(s[0]) then Tokens(s[1..])
    else
      var n := WordEnd(s, 0);
      assert NoWhitespace(s[..n]) by {
        forall k | 0 <= k < n ensures !IsWhitespace(s[..n][k]) { }
      }
      [s[..n]] + Tokens(s[n..])
  }

  /** Output made of whitespace only, or nothing at all, has no tokens. */
  lemma {:induction false} TokensEmpty(s: string)
    ensures Tokens(s) == [] <==> AllWhitespace(s)
    decreases |s|
  {
    if s != [] {
      if IsWhitespace(s[0]) {
        TokensEmpty(s[1..]);
        if !AllWhitespace(s) {
          var i :| 0 <= i < |s| && !IsWhitespace(s[i]);
          assert s[1..][i - 1] == s[i];
        }
      }
    }
  }

  function Concat(parts: seq<string>): string {
    if parts == [] then [] else parts[0] + Concat(parts[1..])
  }

  /** Tokenising loses exactly the whitespace. */
  lemma {:induction false} TokensConcat(s: string)
    ensures Concat(Tokens(s)) == Strip(s)
    decreases |s|
  {
    if s != [] {
      if IsWhitespace(s[0]) {
        TokensConcat(s[1..]);
      } else {
        var n := WordEnd(s, 0);
        TokensConcat(s[n..]);
        assert s == s[..n] + s[n..];
        StripAppend(s[..n], s[n..]);
        assert NoWhitespace(s[..n]) by {
          forall k | 0 <= k < n ensures !IsWhitespace(s[..n][k]) { }
        }
      }
    }
  }

  lemma {:induction false} WordEndOfPrefix(w: string, rest: string)
    requires w != [] && NoWhitespace(w)
    requires rest == [] || IsWhitespace(rest[0])
    ensures WordEnd(w + rest, 0) == |w|
  {
    var s := w + rest;
    assert forall k :: 0 <= k < |w| ==> s[k] == w[k] && !IsWhitespace(s[k]);
    assert |w| < |s| ==> s[|w|] == rest[0] && IsWhitespace(s[|w|]);
  }

  /** Splitting words listed with one whitespace character between
      consecutive ones gives back the words. */
  lemma {:induction false} TokensOfJoin(words: seq<string>, sep: char)
    requires IsWhitespace(sep)
    requires forall i :: 0 <= i < |words| ==> words[i] != [] && NoWhitespace(words[i])
    ensures Tokens(Join(words, [sep])) == words
  {
    if |words| == 1 {
      var w := words[0];
      WordEndOfPrefix(w, []);
      assert w + [] == w;
      assert w[|w|..] == [];
    } else if |words| > 1 {
      var w := words[0];
      var rest := Join(words[1..], [sep]);
      var s := w + [sep] + rest;
      assert s == w + ([sep] + rest);
      WordEndOfPrefix(w, [sep] + rest);
      assert s[..|w|] == w;
      assert s[|w|..] == [sep] + rest;
      assert ([sep] + rest)[1..] == rest;
      TokensOfJoin(words[1..], sep);
    }
  }
}

/**
  The JavaScript string behaviour the schemas, the controller and the
  middleware rely on: truthiness of an optional string, the `trim` that
  Mongoose's `trim: true` setter applies, and `split(' ')`.
*/
module JsStrings {
  import opened Wrappers

  /**
    JavaScript truthiness of an optional string: `undefined`, `null` and `""`
    are falsy, every other string is truthy. Mongoose's `required` check on a
    String path accepts exactly the same values.
  */
  predicate Truthy(v: Option<string>) {
    v.Some? && v.value != ""
  }

  /** The characters `String.prototype.trim` removes: ECMAScript WhiteSpace and LineTerminator. */
  predicate IsWhitespace(c: char) {
    || c == ' ' || c == '\t' || c == '\n' || c == '\r'
    || c == '\U{000B}' || c == '\U{000C}' || c == '\U{00A0}' || c == '\U{1680}'
    || ('\U{2000}' <= c <= '\U{200A}')
    || c == '\U{2028}' || c == '\U{2029}' || c == '\U{202F}' || c == '\U{205F}'
    || c == '\U{3000}' || c == '\U{FEFF}'
  }

  predicate AllWhitespace(s: string) {
    forall i :: 0 <= i < |s| ==> IsWhitespace(s[i])
  }

  /** Neither end of `s` is whitespace: `s` is its own `trim()`. */
  predicate IsTrimmed(s: string) {
    s == [] || (!IsWhitespace(s[0]) && !IsWhitespace(s[|s| - 1]))
  }

  /** Index of the first character at or after `k` that is not whitespace, or `|s|` when there is none. */
  function SkipStart(s: string, k: nat): (i: nat)
    requires k <= |s|
    ensures k <= i <= |s|
    ensures forall m :: k <= m < i ==> IsWhitespace(s[m])
    ensures i < |s| ==> !IsWhitespace(s[i])
    decreases |s| - k
  {
    if k < |s| && IsWhitespace(s[k]) then SkipStart(s, k + 1) else k
  }

  /** Index just past the last character below `k` and at or after `lo` that is not whitespace, or `lo` when there is none. */
  function SkipEnd(s: string, lo: nat, k: nat): (j: nat)
    requires lo <= k <= |s|
    ensures lo <= j <= k
    ensures forall m :: j <= m < k ==> IsWhitespace(s[m])
    ensures j > lo ==> !IsWhitespace(s[j - 1])
    decreases k
  {
    if k > lo && IsWhitespace(s[k - 1]) then SkipEnd(s, lo, k - 1) else k
  }

  /** `s.trim()`: neither end of the result is whitespace (see `TrimIsMiddle` for what it keeps). */
  function Trim(s: string): (r: string)
    ensures IsTrimmed(r)
  {
    var i := SkipStart(s, 0);
    s[i..SkipEnd(s, i, |s|)]
  }

  /** `s.trim()` is the middle of `s` between a whitespace prefix and a whitespace suffix. */
  lemma TrimIsMiddle(s: string) returns (i: nat, j: nat)
    ensures i <= j <= |s| && Trim(s) == s[i..j]
    ensures AllWhitespace(s[..i]) && AllWhitespace(s[j..])
  {
    i := SkipStart(s, 0);
    j := SkipEnd(s, i, |s|);
    assert forall m :: 0 <= m < i ==> s[..i][m] == s[m];
    assert forall m :: 0 <= m < |s| - j ==> s[j..][m] == s[j + m];
  }

  /** Applies `Trim` to a value that may be absent, as a Mongoose setter does. */
  function TrimOpt(v: Option<string>): (r: Option<string>)
    ensures r.Some? <==> v.Some?
    ensures r.Some? ==> IsTrimmed(r.value)
    ensures v.Some? ==> r == Some(Trim(v.value))
  {
    if v.Some? then Some(Trim(v.value)) else None
  }

  /** A string that is already trimmed is left as it is, so trimming is idempotent. */
  lemma TrimTrimmed(s: string)
    requires IsTrimmed(s)
    ensures Trim(s) == s
  {
    assert SkipStart(s, 0) == 0;
    assert SkipEnd(s, 0, |s|) == |s|;
  }

  lemma TrimIdempotent(s: string)
    ensures Trim(Trim(s)) == Trim(s)
  {
    TrimTrimmed(Trim(s));
  }

  /** Trimming gives the empty string exactly when the input is whitespace only. */
  lemma TrimEmptyIff(s: string)
    ensures Trim(s) == "" <==> AllWhitespace(s)
  {
    var i, j := TrimIsMiddle(s);
    if Trim(s) == "" {
      assert i == j;
      forall k | 0 <= k < |s| ensures IsWhitespace(s[k]) {
        if k < i { assert s[k] == s[..i][k]; } else { assert s[k] == s[j..][k - j]; }
      }
    }
  }

  /** A trimmed optional string is truthy exactly when the original held a non-whitespace character. */
  lemma TrimOptTruthy(v: Option<string>)
    ensures Truthy(TrimOpt(v)) <==> v.Some? && !AllWhitespace(v.value)
  {
    if v.Some? { TrimEmptyIff(v.value); }
  }

  /** `p` holds no `' '`. */
  predicate NoSpace(p: string) {
    forall k :: 0 <= k < |p| ==> p[k] != ' '
  }

  /** Index of the first `' '` in `s`, or `|s|` when there is none. */
  function FirstSpace(s: string): (i: nat)
    ensures i <= |s|
    ensures NoSpace(s[..i])
    ensures i < |s| ==> s[i] == ' '
    decreases |s|
  {
    if s == [] || s[0] == ' ' then 0 else 1 + FirstSpace(s[1..])
  }

  /**
    `s.split(' ')`: the pieces between single spaces, at least one of them
    (see `SplitHead` for the first one and `SplitNoSpace` for all of them).
  */
  function Split(s: string): (pieces: seq<string>)
    ensures |pieces| >= 1
    decreases |s|
  {
    var i := FirstSpace(s);
    if i == |s| then [s] else [s[..i]] + Split(s[i + 1..])
  }

  /** The first piece of `s.split(' ')` runs up to the first space. */
  lemma SplitHead(s: string)
    ensures Split(s)[0] == s[..FirstSpace(s)]
  {
    if FirstSpace(s) == |s| { SplitWhole(s); } else { SplitCons(s); }
  }

  /** `pieces.join(' ')`. */
  function Join(pieces: seq<string>): string
    requires |pieces| >= 1
    decreases |pieces|
  {
    if |pieces| == 1 then pieces[0] else pieces[0] + " " + Join(pieces[1..])
  }

  /** No piece of `s.split(' ')` holds a space. */
  lemma {:induction false} SplitNoSpace(s: string)
    ensures forall k :: 0 <= k < |Split(s)| ==> NoSpace(Split(s)[k])
    decreases |s|
  {
    var i := FirstSpace(s);
    if i < |s| {
      SplitCons(s);
      SplitNoSpace(s[i + 1..]);
    } else {
      SplitWhole(s);
    }
  }

  /** A string without a space splits into itself alone. */
  lemma SplitWhole(s: string)
    requires FirstSpace(s) == |s|
    ensures Split(s) == [s]
  {
  }

  /** One step of `split(' ')`: the piece before the first space, then the split of what follows it. */
  lemma SplitCons(s: string)
    requires FirstSpace(s) < |s|
    ensures Split(s) == [s[..FirstSpace(s)]] + Split(s[FirstSpace(s) + 1..])
  {
  }

  /** One step of `join(' ')`. */
  lemma JoinStep(p: string, tail: seq<string>)
    requires |tail| >= 1
    ensures Join([p] + tail) == p + " " + Join(tail)
  {
    assert ([p] + tail)[1..] == tail;
  }

  /** Joining the pieces of a split gives back the string that was split. */
  lemma {:induction false} JoinSplit(s: string)
    ensures Join(Split(s)) == s
    decreases |s|
  {
    var i := FirstSpace(s);
    if i == |s| {
      SplitWhole(s);
    } else {
      JoinSplit(s[i + 1..]);
      SplitCons(s);
      JoinAtSpace(s, i, Split(s), Split(s[i + 1..]));
    }
  }

  /** The step of `JoinSplit` at a space: the piece before it, then pieces that join into the text after it. */
  lemma JoinAtSpace(s: string, i: nat, pieces: seq<string>, tail: seq<string>)
    requires i < |s| && s[i] == ' '
    requires |tail| >= 1 && Join(tail) == s[i + 1..]
    requires pieces == [s[..i]] + tail
    ensures Join(pieces) == s
  {
    calc {
      Join(pieces);
      { JoinStep(s[..i], tail); }
      s[..i] + " " + Join(tail);
      { SpaceAt(s, i); }
      s;
    }
  }

  /** A string is the text before a space, the space, and the text after it. */
  lemma SpaceAt(s: string, i: nat)
    requires i < |s| && s[i] == ' '
    ensures s[..i] + " " + s[i + 1..] == s
  {
  }

  /** Splitting a join of space-free pieces gives back those pieces. */
  lemma {:induction false} SplitJoin(pieces: seq<string>)
    requires |pieces| >= 1
    requires forall k :: 0 <= k < |pieces| ==> NoSpace(pieces[k])
    ensures Split(Join(pieces)) == pieces
    decreases |pieces|
  {
    var p := pieces[0];
    if |pieces| == 1 {
      assert FirstSpace(p) == |p|;
    } else {
      var s := Join(pieces);
      var rest := Join(pieces[1..]);
      assert s == p + " " + rest;
      assert FirstSpace(s) == |p| by {
        assert forall k :: 0 <= k < |p| ==> s[k] == p[k];
        assert s[|p|] == ' ';
      }
      assert s[..|p|] == p;
      assert s[|p| + 1..] == rest;
      calc {
        Split(s);
        [s[..|p|]] + Split(s[|p| + 1..]);
        [p] + Split(rest);
        { SplitJoin(pieces[1..]); }
        [p] + pieces[1..];
        pieces;
      }
    }
  }
}

/** The few functions of Go's `strings` package that the wrapper configuration
    parser relies on, over `string` (a sequence of characters).

    Only the ASCII behaviour is modelled: `TrimSpace` strips the six ASCII
    white-space characters and `ToLower` folds 'A'..'Z'. */
module GoStrings {
  import opened Optional

  /** `strings.HasPrefix`. */
  predicate HasPrefix(s: string, prefix: string)
    ensures HasPrefix(s, prefix) ==> |prefix| <= |s| && s == prefix + s[|prefix|..]
  {
    |prefix| <= |s| && s[..|prefix|] == prefix
  }

  /** The first position of `c` in `s` (`strings.Index` with a one-character
      needle; Go returns -1 where this returns None). */
  function IndexOf(s: string, c: char): (r: Option<nat>)
    ensures r.None? <==> c !in s
    ensures r.Some? ==> r.value < |s| && s[r.value] == c && c !in s[..r.value]
  {
    if s == [] then None
    else if s[0] == c then Some(0)
    else
      match IndexOf(s[1..], c)
      case None => None
      case Some(i) =>
        assert s[..i + 1] == [s[0]] + s[1..][..i];
        Some(i + 1)
  }

  /** The number of occurrences of `c` in `s`. */
  function Count(s: string, c: char): nat {
    if s == [] then 0 else (if s[0] == c then 1 else 0) + Count(s[1..], c)
  }

  /** `strings.Join` with a one-character separator. */
  function Join(parts: seq<string>, sep: char): string {
    if parts == [] then ""
    else if |parts| == 1 then parts[0]
    else parts[0] + [sep] + Join(parts[1..], sep)
  }

  /** `strings.Split` with a one-character separator: the pieces between the
      separators, so there is always at least one, and `Split("", sep)` is
      `[""]`. Joining the pieces again gives back the input. */
  function Split(s: string, sep: char): (parts: seq<string>)
    ensures |parts| >= 1
    ensures forall i :: 0 <= i < |parts| ==> sep !in parts[i]
    ensures Join(parts, sep) == s
    decreases |s|
  {
    match IndexOf(s, sep)
    case None => [s]
    case Some(i) =>
      var rest := Split(s[i + 1..], sep);
      assert s == s[..i] + [sep] + s[i + 1..];
      assert ([s[..i]] + rest)[1..] == rest;
      [s[..i]] + rest
  }

  lemma {:induction false} CountAppend(a: string, b: string, c: char)
    ensures Count(a + b, c) == Count(a, c) + Count(b, c)
  {
    if a != [] {
      assert (a + b)[0] == a[0];
      assert (a + b)[1..] == a[1..] + b;
      CountAppend(a[1..], b, c);
    } else {
      assert a + b == b;
    }
  }

  lemma {:induction false} CountAbsent(s: string, c: char)
    requires c !in s
    ensures Count(s, c) == 0
  {
    if s != [] {
      CountAbsent(s[1..], c);
    }
  }

  /** Splitting yields one more piece than there are separators. */
  lemma {:induction false} SplitLength(s: string, sep: char)
    ensures |Split(s, sep)| == Count(s, sep) + 1
    decreases |s|
  {
    match IndexOf(s, sep)
    case None =>
      CountAbsent(s, sep);
    case Some(i) =>
      SplitLength(s[i + 1..], sep);
      assert s == s[..i] + ([sep] + s[i + 1..]);
      CountAppend(s[..i], [sep] + s[i + 1..], sep);
      CountAppend([sep], s[i + 1..], sep);
      CountAbsent(s[..i], sep);
  }

  /** The first `c` of `a + [c] + b`, when `a` holds none, is the one after `a`. */
  lemma IndexOfAt(a: string, c: char, b: string)
    requires c !in a
    ensures IndexOf(a + [c] + b, c) == Some(|a|)
  {
    var s := a + [c] + b;
    assert s[|a|] == c;
    assert forall k :: 0 <= k < |a| ==> s[k] == a[k];
  }

  /** Splitting at a separator preceded by separator-free text peels that text off. */
  lemma SplitAtFirst(a: string, sep: char, b: string)
    requires sep !in a
    ensures Split(a + [sep] + b, sep) == [a] + Split(b, sep)
  {
    var s := a + [sep] + b;
    IndexOfAt(a, sep, b);
    assert s[..|a|] == a;
    assert s[|a| + 1..] == b;
  }

  /** Split undoes Join when no piece holds the separator. */
  lemma {:induction false} SplitJoin(parts: seq<string>, sep: char)
    requires |parts| >= 1
    requires forall i :: 0 <= i < |parts| ==> sep !in parts[i]
    ensures Split(Join(parts, sep), sep) == parts
  {
    if |parts| == 1 {
      assert sep !in parts[0];
    } else {
      SplitJoin(parts[1..], sep);
      assert sep !in parts[0];
      SplitAtFirst(parts[0], sep, Join(parts[1..], sep));
    }
  }

  lemma {:induction false} JoinSnoc(parts: seq<string>, sep: char, last: string)
    requires |parts| >= 1
    ensures Join(parts + [last], sep) == Join(parts, sep) + [sep] + last
  {
    if |parts| == 1 {
      assert (parts + [last])[1..] == [last];
    } else {
      assert (parts + [last])[1..] == parts[1..] + [last];
      JoinSnoc(parts[1..], sep, last);
    }
  }

  /** A trailing separator adds one empty piece at the end. */
  lemma TrailingSeparator(s: string, sep: char)
    ensures Split(s + [sep], sep) == Split(s, sep) + [""]
  {
    var parts := Split(s, sep);
    JoinSnoc(parts, sep, "");
    assert s + [sep] == Join(parts, sep) + [sep] + "";
    assert forall i :: 0 <= i < |parts + [""]| ==> sep !in (parts + [""])[i] by {
      forall i | 0 <= i < |parts + [""]| ensures sep !in (parts + [""])[i] {
        if i < |parts| { assert (parts + [""])[i] == parts[i]; }
      }
    }
    SplitJoin(parts + [""], sep);
  }

  /** The white space `strings.TrimSpace` strips on its ASCII path. */
  predicate IsSpace(c: char) {
    c == ' ' || c == '\t' || c == '\n' || c == '\U{000B}' || c == '\U{000C}' || c == '\r'
  }

  /** Drops the leading white space: what remains is a suffix of `s` that does not
      start with white space, and everything dropped is white space. */
  function TrimLeft(s: string): (r: string)
    ensures |r| <= |s| && r == s[|s| - |r|..]
    ensures r == [] || !IsSpace(r[0])
    ensures forall i :: 0 <= i < |s| - |r| ==> IsSpace(s[i])
  {
    if s != [] && IsSpace(s[0]) then TrimLeft(s[1..]) else s
  }

  /** Drops the trailing white space: what remains is a prefix of `s` that does not
      end with white space, and everything dropped is white space. */
  function TrimRight(s: string): (r: string)
    ensures |r| <= |s| && r == s[..|r|]
    ensures r == [] || !IsSpace(r[|r| - 1])
    ensures forall i :: |r| <= i < |s| ==> IsSpace(s[i])
  {
    if s != [] && IsSpace(s[|s| - 1]) then TrimRight(s[..|s| - 1]) else s
  }

  /** `strings.TrimSpace` (ASCII white space only). */
  function TrimSpace(s: string): (r: string)
    ensures r == [] || (!IsSpace(r[0]) && !IsSpace(r[|r| - 1]))
  {
    TrimRight(TrimLeft(s))
  }

  lemma {:induction false} TrimLeftKeeps(s: string, c: char)
    requires !IsSpace(c)
    ensures c in TrimLeft(s) <==> c in s
  {
    if s != [] && IsSpace(s[0]) {
      TrimLeftKeeps(s[1..], c);
      InTail(s, c);
    }
  }

  /** Dropping a first character other than `c` does not change whether `c` occurs. */
  lemma InTail(s: string, c: char)
    requires s != [] && s[0] != c
    ensures c in s <==> c in s[1..]
  {
    assert s == [s[0]] + s[1..];
  }

  lemma {:induction false} TrimRightKeeps(s: string, c: char)
    requires !IsSpace(c)
    ensures c in TrimRight(s) <==> c in s
  {
    if s != [] && IsSpace(s[|s| - 1]) {
      TrimRightKeeps(s[..|s| - 1], c);
      assert s == s[..|s| - 1] + [s[|s| - 1]];
    }
  }

  /** Trimming keeps every character that is not white space: in particular an
      '=' is in the trimmed text exactly when it is in the untrimmed one. */
  lemma TrimSpaceKeeps(s: string, c: char)
    requires !IsSpace(c)
    ensures c in TrimSpace(s) <==> c in s
  {
    TrimLeftKeeps(s, c);
    TrimRightKeeps(TrimLeft(s), c);
  }

  /** `TrimSpace` removes exactly a white-space prefix `s[..a]` and a white-space
      suffix `s[b..]`: the result is the slice of `s` between them. */
  lemma TrimSpaceStrips(s: string) returns (a: nat, b: nat)
    ensures a <= b <= |s| && TrimSpace(s) == s[a..b]
    ensures forall i :: 0 <= i < a ==> IsSpace(s[i])
    ensures forall i :: b <= i < |s| ==> IsSpace(s[i])
  {
    var l := TrimLeft(s);
    a := |s| - |l|;
    assert l == s[a..];
    b := a + |TrimRight(l)|;
    SpaceAfter(s, a, b);
    assert TrimSpace(s) == TrimRight(l);
  }

  /** The white space TrimRight drops from a suffix of `s` is white space of `s`. */
  lemma SpaceAfter(s: string, a: nat, b: nat)
    requires a <= |s| && b == a + |TrimRight(s[a..])|
    ensures b <= |s| && TrimRight(s[a..]) == s[a..b]
    ensures forall i :: b <= i < |s| ==> IsSpace(s[i])
  {
    var l := s[a..];
    var r := TrimRight(l);
    assert r == l[..|r|] == s[a..b];
    forall i | b <= i < |s| ensures IsSpace(s[i]) {
      assert s[i] == l[i - a];
    }
  }

  /** ASCII lower-casing of one character. */
  function LowerChar(c: char): char {
    if 'A' <= c <= 'Z' then (c as int + 32) as char else c
  }

  /** `strings.ToLower` (ASCII letters only), character by character. */
  function ToLower(s: string): (r: string)
    ensures |r| == |s|
    ensures forall i :: 0 <= i < |s| ==> r[i] == LowerChar(s[i])
  {
    if s == [] then "" else [LowerChar(s[0])] + ToLower(s[1..])
  }

  /** Text without upper-case ASCII letters is left as is. */
  lemma ToLowerUnchanged(s: string)
    requires forall i :: 0 <= i < |s| ==> !('A' <= s[i] <= 'Z')
    ensures ToLower(s) == s
  {
    var r := ToLower(s);
    assert forall i :: 0 <= i < |s| ==> r[i] == s[i];
  }
}

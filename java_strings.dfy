/** The few `java.lang.String` and `StringUtils` operations the PAC helpers rely on,
    with the edge cases of their Java definitions written out. */
module JavaStrings {

  /** `String.indexOf(char)`: the first position of `c` in `s`, or -1. */
  function IndexOf(s: string, c: char): (i: int)
    ensures -1 <= i < |s|
    ensures i == -1 <==> c !in s
    ensures 0 <= i ==> s[i] == c && c !in s[..i]
  {
    if |s| == 0 then -1
    else if s[0] == c then 0
    else
      var j := IndexOf(s[1..], c);
      if j == -1 then -1
      else
        assert s[..j + 1] == [s[0]] + s[1..][..j];
        j + 1
  }

  /** `StringUtils.countMatches(CharSequence, char)`: how often `c` occurs in `s`. */
  function CountMatches(s: string, c: char): (n: nat)
    ensures n == multiset(s)[c]
    ensures n == 0 <==> c !in s
  {
    if |s| == 0 then 0
    else
      assert s == [s[0]] + s[1..];
      (if s[0] == c then 1 else 0) + CountMatches(s[1..], c)
  }

  /** `Collectors.joining(sep)`: the parts with `sep` between neighbours; "" for no parts. */
  function Join(parts: seq<string>, sep: char): string
  {
    if |parts| == 0 then ""
    else if |parts| == 1 then parts[0]
    else parts[0] + [sep] + Join(parts[1..], sep)
  }

  /** The pieces of `s` between the occurrences of `sep`, empty pieces included. */
  function SplitOn(s: string, sep: char): (parts: seq<string>)
    ensures |parts| >= 1
    ensures forall k :: 0 <= k < |parts| ==> sep !in parts[k]
    ensures Join(parts, sep) == s
    decreases |s|
  {
    var i := IndexOf(s, sep);
    if i == -1 then [s]
    else
      var rest := SplitOn(s[i + 1..], sep);
      var parts := [s[..i]] + rest;
      assert parts[0] == s[..i] && parts[1..] == rest;
      assert forall k :: 0 < k < |parts| ==> parts[k] == rest[k - 1];
      assert Join(parts, sep) == s[..i] + [sep] + Join(rest, sep);
      assert s == s[..i] + [sep] + s[i + 1..];
      parts
  }

  /** Splitting is the only way to cut `s` into separator-free pieces that join back to `s`. */
  lemma {:induction false} SplitOnUnique(parts: seq<string>, sep: char)
    requires |parts| >= 1
    requires forall k :: 0 <= k < |parts| ==> sep !in parts[k]
    ensures SplitOn(Join(parts, sep), sep) == parts
  {
    var s := Join(parts, sep);
    if |parts| == 1 {
      assert s == parts[0];
    } else {
      var p := parts[0];
      var tail := Join(parts[1..], sep);
      assert s == p + [sep] + tail;
      assert s[..|p|] == p && s[|p|] == sep && s[|p| + 1..] == tail;
      IndexOfFirst(s, sep, |p|);
      assert SplitOn(s, sep) == [p] + SplitOn(tail, sep);
      assert forall k :: 0 <= k < |parts| - 1 ==> parts[1..][k] == parts[k + 1];
      SplitOnUnique(parts[1..], sep);
      assert parts == [p] + parts[1..];
    }
  }

  lemma IndexOfFirst(s: string, c: char, i: nat)
    requires i < |s| && s[i] == c && c !in s[..i]
    ensures IndexOf(s, c) == i
  {
  }

  /** Removes the empty strings at the end of `parts`, as `String.split` does. */
  function DropTrailingEmpty(parts: seq<string>): (r: seq<string>)
    ensures |r| <= |parts| && r == parts[..|r|]
    ensures r == [] || r[|r| - 1] != ""
    ensures forall k :: |r| <= k < |parts| ==> parts[k] == ""
  {
    if |parts| == 0 then []
    else if parts[|parts| - 1] == "" then DropTrailingEmpty(parts[..|parts| - 1])
    else parts
  }

  /** `String.split(String.valueOf(sep))` for a separator that is not a regex
      metacharacter: an input without `sep` comes back whole (so "" gives [""]),
      otherwise the pieces with the trailing empty ones removed. */
  function JavaSplit(s: string, sep: char): (parts: seq<string>)
    ensures sep !in s ==> parts == [s]
    ensures forall k :: 0 <= k < |parts| ==> sep !in parts[k]
    ensures sep in s ==> |parts| <= |SplitOn(s, sep)| && parts == SplitOn(s, sep)[..|parts|]
    ensures sep in s ==> parts == [] || parts[|parts| - 1] != ""
    ensures sep in s ==> forall k :: |parts| <= k < |SplitOn(s, sep)| ==> SplitOn(s, sep)[k] == ""
  {
    if sep !in s then [s]
    else
      var all := SplitOn(s, sep);
      var parts := DropTrailingEmpty(all);
      assert forall k :: 0 <= k < |parts| ==> parts[k] == all[k];
      parts
  }

  /** The characters `String.trim` removes: every code point up to and including the space. */
  predicate IsTrimmable(c: char)
  {
    c <= ' '
  }

  function StripLeading(s: string): (r: string)
    ensures |r| <= |s| && r == s[|s| - |r|..]
    ensures r == [] || !IsTrimmable(r[0])
    ensures forall k :: 0 <= k < |s| - |r| ==> IsTrimmable(s[k])
  {
    if |s| > 0 && IsTrimmable(s[0]) then StripLeading(s[1..]) else s
  }

  function StripTrailing(s: string): (r: string)
    ensures |r| <= |s| && r == s[..|r|]
    ensures r == [] || !IsTrimmable(r[|r| - 1])
    ensures forall k :: |r| <= k < |s| ==> IsTrimmable(s[k])
  {
    if |s| > 0 && IsTrimmable(s[|s| - 1]) then StripTrailing(s[..|s| - 1]) else s
  }

  /** `String.trim`: `s` without its leading and trailing characters up to the space. */
  function Trim(s: string): (r: string)
    ensures TrimOffset(s) + |r| <= |s|
    ensures r == [] || (!IsTrimmable(r[0]) && !IsTrimmable(r[|r| - 1]))
    ensures r == s[TrimOffset(s)..TrimOffset(s) + |r|]
    ensures forall k :: 0 <= k < TrimOffset(s) ==> IsTrimmable(s[k])
    ensures forall k :: TrimOffset(s) + |r| <= k < |s| ==> IsTrimmable(s[k])
  {
    var lead := StripLeading(s);
    var r := StripTrailing(lead);
    assert r == [] || r[0] == lead[0];
    r
  }

  /** How many characters `Trim` removes at the front. */
  function TrimOffset(s: string): (n: nat)
    ensures n <= |s|
  {
    |s| - |StripLeading(s)|
  }

  /** A string that starts and ends with a visible character is its own trim. */
  lemma TrimOfTrimmed(s: string)
    requires s == [] || (!IsTrimmable(s[0]) && !IsTrimmable(s[|s| - 1]))
    ensures Trim(s) == s
  {
    assert StripLeading(s) == s;
    assert StripTrailing(s) == s;
  }

  /** Trimming twice is trimming once. */
  lemma TrimIdempotent(s: string)
    ensures Trim(Trim(s)) == Trim(s)
  {
    TrimOfTrimmed(Trim(s));
  }
}

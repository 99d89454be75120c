/**
 * The few Python string built-ins the date and row-cleaning helpers rely on:
 * `str.strip()`, `str.split(sep)` for a one-character separator, `sep.join(parts)`
 * and `re.sub(c, "", s)` for a one-character pattern.
 */
module PyStr {

  /** The characters for which Python's `str.isspace()` holds; `strip()` removes them. */
  predicate IsSpace(c: char)
  {
    c == ' ' || ('\t' <= c <= '\r') || ('\U{1C}' <= c <= '\U{1F}') ||
    c == '\U{85}' || c == '\U{A0}' || c == '\U{1680}' || ('\U{2000}' <= c <= '\U{200A}') ||
    c == '\U{2028}' || c == '\U{2029}' || c == '\U{202F}' || c == '\U{205F}' || c == '\U{3000}'
  }

  predicate AllSpace(s: string)
  {
    forall k :: 0 <= k < |s| ==> IsSpace(s[k])
  }

  /** The number of whitespace characters `s.lstrip()` removes. */
  function LeadingSpaces(s: string): (n: nat)
    ensures n <= |s|
    ensures forall k :: 0 <= k < n ==> IsSpace(s[k])
    ensures n < |s| ==> !IsSpace(s[n])
  {
    if |s| > 0 && IsSpace(s[0]) then 1 + LeadingSpaces(s[1..]) else 0
  }

  /** Where the whitespace that `s.rstrip()` removes begins. */
  function TrailingStart(s: string): (n: nat)
    ensures n <= |s|
    ensures forall k :: n <= k < |s| ==> IsSpace(s[k])
    ensures n > 0 ==> !IsSpace(s[n - 1])
  {
    if |s| > 0 && IsSpace(s[|s| - 1]) then TrailingStart(s[..|s| - 1]) else |s|
  }

  /** `s.lstrip()`. */
  function LStrip(s: string): (r: string)
    ensures r == [] || !IsSpace(r[0])
  {
    s[LeadingSpaces(s)..]
  }

  /** `s.rstrip()`. */
  function RStrip(s: string): (r: string)
    ensures r == [] || !IsSpace(r[|r| - 1])
  {
    s[..TrailingStart(s)]
  }

  /** `s` is `r` with only whitespace added on either side. */
  ghost predicate PaddedBy(s: string, r: string)
  {
    exists i :: 0 <= i <= |s| - |r| && s[i..i + |r|] == r && AllSpace(s[..i]) && AllSpace(s[i + |r|..])
  }

  /** `s.strip()`: `s` without its leading and trailing whitespace. */
  function Strip(s: string): (r: string)
    ensures r != [] ==> !IsSpace(r[0]) && !IsSpace(r[|r| - 1])
  {
    RStrip(LStrip(s))
  }

  /** What `strip()` removes is whitespace only, and only from the two ends. */
  lemma StripPadded(s: string)
    ensures PaddedBy(s, Strip(s))
  {
    var i := LeadingSpaces(s);
    var l := s[i..];
    var r := l[..TrailingStart(l)];
    assert s[i..i + |r|] == r;
    assert AllSpace(s[..i]);
    var tail := s[i + |r|..];
    forall k | 0 <= k < |tail| ensures IsSpace(tail[k]) {
      assert tail[k] == l[|r| + k];
    }
  }

  /** Whatever is padded around text that already is stripped, `strip()` takes off exactly. */
  lemma {:induction false} StripIdempotent(s: string)
    ensures Strip(Strip(s)) == Strip(s)
  {
    var r := Strip(s);
    if r != [] {
      assert LStrip(r) == r;
      assert RStrip(r) == r;
    }
  }

  /** `s.split(sep)`: the pieces between occurrences of `sep`; never empty, `[""]` for `""`. */
  function Split(s: string, sep: char): (parts: seq<string>)
    ensures |parts| >= 1
    ensures forall k :: 0 <= k < |parts| ==> sep !in parts[k]
  {
    if |s| == 0 then [""]
    else
      var rest := Split(s[1..], sep);
      if s[0] == sep then [""] + rest else [[s[0]] + rest[0]] + rest[1..]
  }

  /** `sep.join(parts)`. */
  function Join(parts: seq<string>, sep: string): (r: string)
  {
    if |parts| == 0 then ""
    else if |parts| == 1 then parts[0]
    else parts[0] + sep + Join(parts[1..], sep)
  }

  /** `re.sub(c, "", s)` for a pattern that is one ordinary character `c`. */
  function RemoveAll(s: string, c: char): (r: string)
    ensures c !in r
    ensures c !in s ==> r == s
  {
    if |s| == 0 then ""
    else if s[0] == c then RemoveAll(s[1..], c)
    else [s[0]] + RemoveAll(s[1..], c)
  }

  /** Removing a character from two pieces of text removes it from their concatenation. */
  lemma {:induction false} RemoveAllConcat(a: string, b: string, c: char)
    ensures RemoveAll(a + b, c) == RemoveAll(a, c) + RemoveAll(b, c)
  {
    if |a| > 0 {
      RemoveAllConcat(a[1..], b, c);
      assert (a + b)[1..] == a[1..] + b;
    } else {
      assert a + b == b;
    }
  }

  /** Splitting at `sep` and joining with `sep` gives back the original string. */
  lemma {:induction false} JoinSplit(s: string, sep: char)
    ensures Join(Split(s, sep), [sep]) == s
  {
    if |s| > 0 {
      var rest := Split(s[1..], sep);
      JoinSplit(s[1..], sep);
      if s[0] != sep {
        if |rest| > 1 {
          assert rest == [rest[0]] + rest[1..];
          assert Join(rest, [sep]) == rest[0] + [sep] + Join(rest[1..], [sep]);
        }
      }
    }
  }

  lemma JoinConsEmpty(head: string, rest: seq<string>)
    requires |rest| >= 1
    ensures Join([head] + rest, "") == head + Join(rest, "")
  {
    var parts := [head] + rest;
    assert parts[0] == head && parts[1..] == rest;
    assert Join(parts, "") == parts[0] + "" + Join(parts[1..], "");
    assert head + "" == head;
  }

  /** `re.sub(c, "", s)` is `"".join(s.split(c))`. */
  lemma {:induction false} RemoveAllIsSplitJoin(s: string, c: char)
    ensures RemoveAll(s, c) == Join(Split(s, c), "")
  {
    if |s| > 0 {
      RemoveAllIsSplitJoin(s[1..], c);
      var rest := Split(s[1..], c);
      if s[0] == c {
        JoinConsEmpty("", rest);
      } else if |rest| == 1 {
      } else {
        assert rest == [rest[0]] + rest[1..];
        JoinConsEmpty(rest[0], rest[1..]);
        JoinConsEmpty([s[0]] + rest[0], rest[1..]);
      }
    }
  }
}

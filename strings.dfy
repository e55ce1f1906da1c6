/**
 * The java.lang.String, commons-lang and Guava Joiner operations that the
 * JVM component rules rely on, restricted to what those rules use:
 * lower-casing, capitalising, substring and suffix tests, and joining.
 * Case mapping is modelled on the ASCII letters only.
 */
module Strings {

  /** Character.toLowerCase on ASCII letters; every other character is kept. */
  function LowerChar(c: char): char {
    if 'A' <= c <= 'Z' then (c as int + 32) as char else c
  }

  /** Character.toTitleCase on ASCII letters; every other character is kept. */
  function UpperChar(c: char): char {
    if 'a' <= c <= 'z' then (c as int - 32) as char else c
  }

  /** String.toLowerCase: every character lower-cased, length kept. */
  function ToLower(s: string): (r: string)
    ensures |r| == |s|
    ensures forall i :: 0 <= i < |s| ==> r[i] == LowerChar(s[i])
  {
    if s == [] then [] else [LowerChar(s[0])] + ToLower(s[1..])
  }

  /** Lower-casing a lower-cased string changes nothing. */
  lemma ToLowerIdempotent(s: string)
    ensures ToLower(ToLower(s)) == ToLower(s)
  {
    var t := ToLower(s);
    assert forall i :: 0 <= i < |t| ==> ToLower(t)[i] == t[i];
  }

  /**
   * StringUtils.capitalize: the first character title-cased, the rest
   * unchanged; the empty string is returned as it is.
   */
  function Capitalize(s: string): (r: string)
    ensures |r| == |s|
    ensures s != [] ==> r[0] == UpperChar(s[0]) && r[1..] == s[1..]
  {
    if s == [] then s else [UpperChar(s[0])] + s[1..]
  }

  /** Capitalising changes only the case of the first character. */
  lemma CapitalizeKeepsLetters(s: string)
    ensures |Capitalize(s)| == |s|
    ensures ToLower(Capitalize(s)) == ToLower(s)
    ensures Capitalize(Capitalize(s)) == Capitalize(s)
  {
    if s != [] {
      var c := Capitalize(s);
      assert LowerChar(c[0]) == LowerChar(s[0]);
      assert forall i :: 0 <= i < |s| ==> ToLower(c)[i] == ToLower(s)[i];
    }
  }

  /** `sub` occurs in `s` starting at index `i`. */
  predicate OccursAt(s: string, sub: string, i: int) {
    0 <= i && i + |sub| <= |s| && s[i..i + |sub|] == sub
  }

  /**
   * String.contains: `sub` occurs somewhere in `s`, the empty string
   * occurring everywhere.
   */
  function Contains(s: string, sub: string): (b: bool)
    ensures b <==> exists i :: OccursAt(s, sub, i)
    decreases |s|
  {
    if |s| < |sub| then false
    else if s[..|sub|] == sub then
      assert OccursAt(s, sub, 0);
      true
    else
      var b := Contains(s[1..], sub);
      assert forall i :: OccursAt(s, sub, i) ==> i == 0 || OccursAt(s[1..], sub, i - 1);
      assert forall i :: OccursAt(s[1..], sub, i) ==> OccursAt(s, sub, i + 1);
      b
  }

  /** String.endsWith: `s` is some prefix followed by `suffix`. */
  predicate EndsWith(s: string, suffix: string): (b: bool)
    ensures b <==> |suffix| <= |s| && s[..|s| - |suffix|] + suffix == s
  {
    |suffix| <= |s| && s[|s| - |suffix|..] == suffix
  }

  /** Total length of the parts. */
  function TotalLength(parts: seq<string>): nat {
    if parts == [] then 0 else |parts[0]| + TotalLength(parts[1..])
  }

  /** Joiner.on(sep).join(parts): the parts in order, `sep` between neighbours. */
  function Join(parts: seq<string>, sep: string): (r: string)
    ensures parts == [] ==> r == ""
    ensures |parts| == 1 ==> r == parts[0]
    ensures |parts| > 1 ==> |parts[0]| + |sep| <= |r| && r[..|parts[0]| + |sep|] == parts[0] + sep
  {
    if |parts| == 0 then ""
    else if |parts| == 1 then parts[0]
    else parts[0] + sep + Join(parts[1..], sep)
  }

  /** A join's length is the parts' total length plus one separator per gap between neighbouring parts. */
  lemma {:induction false} JoinLength(parts: seq<string>, sep: string)
    requires parts != []
    ensures |Join(parts, sep)| == TotalLength(parts) + (|parts| - 1) * |sep|
  {
    if |parts| > 1 {
      JoinLength(parts[1..], sep);
    }
  }

  /** Joining one more part appends the separator and then that part. */
  lemma {:induction false} JoinAppend(parts: seq<string>, part: string, sep: string)
    requires parts != []
    ensures Join(parts + [part], sep) == Join(parts, sep) + sep + part
  {
    if |parts| == 1 {
      assert parts + [part] == [parts[0], part];
      assert Join([part], sep) == part;
    } else {
      var rest := parts[1..];
      assert (parts + [part])[0] == parts[0] && (parts + [part])[1..] == rest + [part];
      JoinAppend(rest, part, sep);
      assert Join(parts + [part], sep) == parts[0] + sep + Join(rest + [part], sep);
      assert Join(parts, sep) == parts[0] + sep + Join(rest, sep);
    }
  }
}

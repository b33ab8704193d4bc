/**
 * The string operations the Apex helpers use, on ASCII: lowercasing,
 * case-insensitive equality, suffix test, and joining names with a separator.
 */
module Strings {

  function LowerChar(c: char): char
  {
    if 'A' <= c <= 'Z' then (c as int + 32) as char else c
  }

  /** `toLowerCase(Locale.ROOT)`, on ASCII letters. */
  function Lower(s: string): string
  {
    seq(|s|, i requires 0 <= i < |s| => LowerChar(s[i]))
  }

  /** `equalsIgnoreCase`, on ASCII letters. */
  predicate EqualsIgnoreCase(a: string, b: string)
  {
    Lower(a) == Lower(b)
  }

  predicate EndsWith(s: string, suffix: string)
  {
    |suffix| <= |s| && s[|s| - |suffix|..] == suffix
  }

  /** The first position of `c` in `s`, or `|s|` when there is none. */
  function IndexOf(s: string, c: char): (i: nat)
    ensures i <= |s|
    ensures i < |s| ==> s[i] == c
    ensures forall j :: 0 <= j < i ==> s[j] != c
  {
    if s == [] then 0 else if s[0] == c then 0 else 1 + IndexOf(s[1..], c)
  }

  /** The names with `sep` between consecutive ones and none after the last. */
  function Join(names: seq<string>, sep: char): string
  {
    if names == [] then ""
    else if |names| == 1 then names[0]
    else names[0] + [sep] + Join(names[1..], sep)
  }

  /** The pieces of `s` between occurrences of `sep`. */
  function Split(s: string, sep: char): seq<string>
    decreases |s|
  {
    var i := IndexOf(s, sep);
    if i == |s| then [s] else [s[..i]] + Split(s[i + 1..], sep)
  }

  /** Joining one more name adds the separator and that name. */
  lemma {:induction false} JoinSnoc(names: seq<string>, name: string, sep: char)
    requires names != []
    ensures Join(names + [name], sep) == Join(names, sep) + [sep] + name
  {
    if |names| > 1 {
      assert (names + [name])[1..] == names[1..] + [name];
      JoinSnoc(names[1..], name, sep);
    }
  }

  /** Splitting undoes joining, for a non-empty list of names that do not
      contain the separator. */
  lemma {:induction false} SplitJoin(names: seq<string>, sep: char)
    requires names != []
    requires forall i :: 0 <= i < |names| ==> sep !in names[i]
    ensures Split(Join(names, sep), sep) == names
  {
    var first := names[0];
    if |names| == 1 {
      assert IndexOf(first, sep) == |first|;
    } else {
      var s := Join(names, sep);
      assert s == first + [sep] + Join(names[1..], sep);
      assert s[|first|] == sep;
      assert forall j :: 0 <= j < |first| ==> s[j] == first[j];
      assert IndexOf(s, sep) == |first|;
      assert s[..|first|] == first;
      assert s[|first| + 1..] == Join(names[1..], sep);
      SplitJoin(names[1..], sep);
    }
  }
}

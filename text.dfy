/** Java string operations the chat server and client rely on, restricted to ASCII. */
module Text {

  datatype Option<T> = None | Some(value: T)

  /** A Java `String` reference: `null` (what `readLine` returns at end of stream,
      and the value of a username that was never assigned) or an actual string. */
  datatype Nullable = Null | Str(value: string)

  /** How Java string concatenation renders a possibly-null `String`. */
  function Show(n: Nullable): (r: string)
    ensures n.Str? ==> r == n.value
    ensures n.Null? ==> r == "null"
  {
    match n
    case Null => "null"
    case Str(s) => s
  }

  /** `String.startsWith` */
  predicate StartsWith(s: string, prefix: string) {
    |prefix| <= |s| && s[..|prefix|] == prefix
  }

  /** `part` occurs in `s` starting at position `i`. */
  predicate OccursAt(s: string, part: string, i: int) {
    0 <= i <= |s| - |part| && s[i..i + |part|] == part
  }

  /** `String.contains` */
  predicate Contains(s: string, part: string) {
    exists i :: 0 <= i <= |s| - |part| && OccursAt(s, part, i)
  }

  /** `startsWith` compares the leading characters one by one, and a prefix is contained. */
  lemma StartsWithByIndex(s: string, prefix: string)
    ensures StartsWith(s, prefix) <==>
      |prefix| <= |s| && forall k :: 0 <= k < |prefix| ==> s[k] == prefix[k]
    ensures StartsWith(s, prefix) ==> Contains(s, prefix)
  {
    if StartsWith(s, prefix) {
      assert OccursAt(s, prefix, 0);
    }
  }

  /** A contained string is no longer than its container, and the empty string is
      contained in every string. */
  lemma ContainsBounds(s: string, part: string)
    ensures Contains(s, part) ==> |part| <= |s|
    ensures part == [] ==> Contains(s, part)
  {
    if part == [] {
      assert OccursAt(s, part, 0);
    }
  }

  /** Every character of a contained string occurs in the containing one; used to show
      that a line does NOT contain a word by naming a letter of the word the line lacks. */
  lemma ContainedCharsOccur(s: string, part: string, k: nat)
    requires Contains(s, part) && k < |part|
    ensures part[k] in s
  {
    var i :| 0 <= i <= |s| - |part| && OccursAt(s, part, i);
    assert s[i..i + |part|][k] == s[i + k];
  }

  /** Exhibits an occurrence: `part` starts at position `i` of `s`. */
  lemma ContainsAt(s: string, part: string, i: nat)
    requires i + |part| <= |s| && s[i..i + |part|] == part
    ensures Contains(s, part)
  {
    assert OccursAt(s, part, i);
  }

  /** `Character.toLowerCase` on ASCII letters. */
  function LowerChar(c: char): (r: char)
    ensures 'A' <= c <= 'Z' ==> r as int == c as int + 32
    ensures !('A' <= c <= 'Z') ==> r == c
  {
    if 'A' <= c <= 'Z' then (c as int + 32) as char else c
  }

  /** `String.toLowerCase` on ASCII text: each character lowered, length kept. */
  function ToLower(s: string): (r: string)
    ensures |r| == |s|
    ensures forall i :: 0 <= i < |s| ==> r[i] == LowerChar(s[i])
  {
    seq(|s|, i requires 0 <= i < |s| => LowerChar(s[i]))
  }

  /** `String.equalsIgnoreCase` on ASCII text. */
  predicate EqualsIgnoreCase(a: string, b: string) {
    ToLower(a) == ToLower(b)
  }

  /** `equalsIgnoreCase`: the same length, and each pair of characters equal once lowered. */
  lemma EqualsIgnoreCaseByChar(a: string, b: string)
    ensures EqualsIgnoreCase(a, b) <==>
      |a| == |b| && forall k :: 0 <= k < |a| ==> LowerChar(a[k]) == LowerChar(b[k])
  {
    if |a| == |b| && forall k :: 0 <= k < |a| ==> LowerChar(a[k]) == LowerChar(b[k]) {
      assert ToLower(a) == ToLower(b);
    }
  }

  /** A character matched by the regular expression `\s`: space, tab, newline,
      vertical tab, form feed, carriage return. */
  predicate IsSpace(c: char) {
    c == ' ' || '\t' <= c <= '\r'
  }

  /** Index of the first whitespace character at or after `i`, or `|s|` when there is none. */
  function NextSpace(s: string, i: nat): (r: nat)
    requires i <= |s|
    ensures i <= r <= |s|
    ensures r < |s| ==> IsSpace(s[r])
    ensures forall k :: i <= k < r ==> !IsSpace(s[k])
    decreases |s| - i
  {
    if i == |s| || IsSpace(s[i]) then i else NextSpace(s, i + 1)
  }

  /** Index just past the run of whitespace that starts at `i`. */
  function SkipSpaces(s: string, i: nat): (r: nat)
    requires i <= |s|
    ensures i <= r <= |s|
    ensures r < |s| ==> !IsSpace(s[r])
    ensures forall k :: i <= k < r ==> IsSpace(s[k])
    decreases |s| - i
  {
    if i == |s| || !IsSpace(s[i]) then i else SkipSpaces(s, i + 1)
  }

  /** `NextSpace` stops at the first whitespace character. */
  lemma {:induction false} NextSpaceFindsFirst(s: string, i: nat, end: nat)
    requires i <= end < |s| && IsSpace(s[end])
    requires forall k :: i <= k < end ==> !IsSpace(s[k])
    ensures NextSpace(s, i) == end
    decreases end - i
  {
    if i < end {
      NextSpaceFindsFirst(s, i + 1, end);
    }
  }

  /** `SkipSpaces` consumes exactly one maximal run of whitespace. */
  lemma {:induction false} SkipSpacesFindsEnd(s: string, i: nat, end: nat)
    requires i <= end <= |s| && (end == |s| || !IsSpace(s[end]))
    requires forall k :: i <= k < end ==> IsSpace(s[k])
    ensures SkipSpaces(s, i) == end
    decreases end - i
  {
    if i < end {
      SkipSpacesFindsEnd(s, i + 1, end);
    }
  }

  /** The two parts of `s.split("\\s+", 2)`: the text before the first run of
      whitespace, and (when there is such a run) everything after the whole run. */
  datatype Parts = Parts(first: string, rest: Option<string>)

  /** `split("\\s+", 2)`: the pattern is applied at most once, and with a positive
      limit a trailing empty part is kept ("/file " gives "/file" and ""). The result
      reassembles to the input: the first part, a non-empty run of whitespace, the rest. */
  function SplitOnce(s: string): (p: Parts)
    ensures forall k :: 0 <= k < |p.first| ==> !IsSpace(p.first[k])
    ensures p.rest.None? ==> p.first == s
    ensures p.rest.Some? ==>
      var gap := |s| - |p.first| - |p.rest.value|;
      && gap > 0
      && s == p.first + s[|p.first|..|p.first| + gap] + p.rest.value
      && (forall k :: |p.first| <= k < |p.first| + gap ==> IsSpace(s[k]))
      && (p.rest.value != [] ==> !IsSpace(p.rest.value[0]))
  {
    var i := NextSpace(s, 0);
    if i == |s| then Parts(s, None)
    else
      var j := SkipSpaces(s, i);
      assert s == s[..i] + s[i..j] + s[j..];
      Parts(s[..i], Some(s[j..]))
  }

  /** Splitting a command word, a run of whitespace and an argument gives back the word
      and the argument: `SplitOnce` inverts the joining. */
  lemma SplitRecoversWordAndArgument(word: string, gap: string, arg: string)
    requires forall k :: 0 <= k < |word| ==> !IsSpace(word[k])
    requires gap != [] && forall k :: 0 <= k < |gap| ==> IsSpace(gap[k])
    requires arg == [] || !IsSpace(arg[0])
    ensures SplitOnce(word + gap + arg) == Parts(word, Some(arg))
  {
    var s := word + gap + arg;
    var w, e := |word|, |word| + |gap|;
    NextSpaceFindsFirst(s, 0, w);
    SkipSpacesFindsEnd(s, w, e);
    assert s[..w] == word && s[e..] == arg;
  }
}

/** The few operations on Python `str` values that the applications rely on, on Dafny strings. */
module PyStr {
  import opened Wrappers

  /** Python truthiness of an optional string (`if s:` / `not s`): present and non-empty. */
  predicate Truthy(s: Option<string>)
  {
    s.Some? && s.value != ""
  }

  /** The characters for which `str.isspace()` holds; `str.strip()` removes exactly these. */
  predicate IsSpace(c: char)
  {
    c == ' ' || ('\t' <= c <= '\r') || ('\U{1C}' <= c <= '\U{1F}')
    || c == '\U{85}' || c == '\U{A0}' || c == '\U{1680}'
    || ('\U{2000}' <= c <= '\U{200A}') || c == '\U{2028}' || c == '\U{2029}'
    || c == '\U{202F}' || c == '\U{205F}' || c == '\U{3000}'
  }

  /** Neither begins nor ends with whitespace: the strings `strip()` leaves as they are. */
  predicate Trimmed(s: string)
  {
    s == [] || (!IsSpace(s[0]) && !IsSpace(s[|s| - 1]))
  }

  /** Python's `s.lstrip()`. */
  function StripLeft(s: string): (r: string)
    ensures |r| <= |s| && r == s[|s| - |r|..]
    ensures r == [] || !IsSpace(r[0])
    ensures AllSpace(s[..|s| - |r|])
  {
    if s != [] && IsSpace(s[0]) then
      var r := StripLeft(s[1..]);
      assert s[..|s| - |r|] == [s[0]] + s[1..][..|s| - 1 - |r|];
      r
    else s
  }

  /** Python's `s.rstrip()`. */
  function StripRight(s: string): (r: string)
    ensures |r| <= |s| && r == s[..|r|]
    ensures r == [] || !IsSpace(r[|r| - 1])
    ensures AllSpace(s[|r|..])
  {
    if s != [] && IsSpace(s[|s| - 1]) then
      var r := StripRight(s[..|s| - 1]);
      assert s[|r|..] == s[..|s| - 1][|r|..] + [s[|s| - 1]];
      r
    else s
  }

  /** Every character of `t` is whitespace. */
  predicate AllSpace(t: string)
  {
    forall k :: 0 <= k < |t| ==> IsSpace(t[k])
  }

  /** `s` is `r` with only whitespace before it (the first `i` characters) and after it. */
  predicate SpaceAround(s: string, i: int, r: string)
  {
    0 <= i <= |s| - |r| && r == s[i..i + |r|] && AllSpace(s[..i]) && AllSpace(s[i + |r|..])
  }

  /** Python's `s.strip()`: what is left of `s` once the whitespace at both ends is gone. */
  function Strip(s: string): (r: string)
    ensures Trimmed(r)
    ensures Trimmed(s) ==> r == s
  {
    StripRight(StripLeft(s))
  }

  /** `strip()` removes whitespace only, and only from the two ends: the result is a slice of
      `s` with nothing but whitespace before and after it. */
  lemma StripBothEnds(s: string)
    ensures exists i :: SpaceAround(s, i, Strip(s))
    ensures SpaceAround(s, |s| - |StripLeft(s)|, Strip(s))
  {
    SpaceAroundOfParts(s, StripLeft(s), StripRight(StripLeft(s)));
    assert SpaceAround(s, |s| - |StripLeft(s)|, Strip(s));
  }

  /** A suffix `l` of `s` after whitespace, and a prefix `r` of `l` before whitespace. */
  lemma SpaceAroundOfParts(s: string, l: string, r: string)
    requires |l| <= |s| && l == s[|s| - |l|..] && AllSpace(s[..|s| - |l|])
    requires |r| <= |l| && r == l[..|r|] && AllSpace(l[|r|..])
    ensures SpaceAround(s, |s| - |l|, r)
  {
    var i := |s| - |l|;
    assert s[i + |r|..] == l[|r|..];
  }

  lemma CharOfSpaceAround(s: string, i: int, r: string, j: int)
    requires SpaceAround(s, i, r) && 0 <= j < |r|
    ensures r[j] in s
  {
    assert s[i + j] == r[j];
  }

  /** `strip()` only removes characters: whatever is in the result was in the input. */
  lemma StripKeepsCharacters(s: string, c: char)
    requires c in Strip(s)
    ensures c in s
  {
    var r := Strip(s);
    var i := |s| - |StripLeft(s)|;
    StripBothEnds(s);
    var j :| 0 <= j < |r| && r[j] == c;
    CharOfSpaceAround(s, i, r, j);
  }

  lemma {:induction false} StripLeftConcat(s: string, t: string)
    ensures StripLeft(s + t) == if StripLeft(s) == [] then StripLeft(t) else StripLeft(s) + t
    decreases |s|
  {
    if s == [] {
      assert s + t == t;
    } else if IsSpace(s[0]) {
      assert (s + t)[1..] == s[1..] + t;
      StripLeftConcat(s[1..], t);
    }
  }

  /** A line terminator at the end makes no difference to `strip()`. */
  lemma StripNewline(s: string)
    ensures Strip(s + "\n") == Strip(s)
  {
    StripLeftConcat(s, "\n");
    var l := StripLeft(s);
    if l == [] {
      StripLeftNewline();
    } else {
      StripRightNewline(l);
    }
  }

  lemma StripLeftNewline()
    ensures StripLeft("\n") == []
  {
    var t: string := ['\n'];
    assert IsSpace(t[0]) && t[1..] == [];
    assert StripLeft(t) == StripLeft([]);
  }

  lemma StripRightNewline(l: string)
    ensures StripRight(l + "\n") == StripRight(l)
  {
    var t := l + "\n";
    assert t[|t| - 1] == '\n' && t[..|t| - 1] == l;
  }

  /** A string with no "\n" before its last character has none at all once stripped. */
  lemma StripLineHasNoNewline(line: string)
    requires line != [] && '\n' !in line[..|line| - 1]
    ensures '\n' !in Strip(line)
  {
    var body := line[..|line| - 1];
    if line[|line| - 1] == '\n' {
      assert line == body + "\n";
      StripNewline(body);
      if '\n' in Strip(body) {
        StripKeepsCharacters(body, '\n');
      }
    } else {
      assert line == body + [line[|line| - 1]];
      if '\n' in Strip(line) {
        StripKeepsCharacters(line, '\n');
      }
    }
  }

  /** `pat` occurs in `s` at index `i`. */
  predicate OccursAt(pat: string, s: string, i: int)
  {
    0 <= i <= |s| - |pat| && s[i..i + |pat|] == pat
  }

  /** `pat` occurs somewhere in `s`. */
  predicate Occurs(pat: string, s: string)
  {
    exists i :: 0 <= i <= |s| - |pat| && OccursAt(pat, s, i)
  }

  lemma OccursInTail(pat: string, s: string)
    requires s != [] && Occurs(pat, s[1..])
    ensures Occurs(pat, s)
  {
    var i :| 0 <= i <= |s[1..]| - |pat| && OccursAt(pat, s[1..], i);
    assert s[i + 1..i + 1 + |pat|] == s[1..][i..i + |pat|];
    assert OccursAt(pat, s, i + 1);
  }

  /** Python's `s.endswith(suffix)`. */
  predicate EndsWith(s: string, suffix: string)
  {
    |suffix| <= |s| && s[|s| - |suffix|..] == suffix
  }

  /** Python's `s.replace(pat, rep)` for a non-empty `pat`: occurrences are found from the left
      and do not overlap, and every one of them is replaced. */
  function Replace(s: string, pat: string, rep: string): string
    requires pat != []
    decreases |s|
  {
    if |s| < |pat| then s
    else if s[..|pat|] == pat then rep + Replace(s[|pat|..], pat, rep)
    else [s[0]] + Replace(s[1..], pat, rep)
  }

  /** Removing every `pat` from `id + pat` gives back `id`, when `pat` does not occur in `id` and the
      first character of `pat` does not recur in it (so no occurrence can straddle the two parts). */
  lemma {:induction false} ReplaceDropsSuffix(id: string, pat: string)
    requires pat != [] && !Occurs(pat, id)
    requires forall k :: 0 < k < |pat| ==> pat[k] != pat[0]
    ensures Replace(id + pat, pat, "") == id
    decreases |id|
  {
    var s := id + pat;
    if id == [] {
      assert s[..|pat|] == pat && s[|pat|..] == [];
    } else {
      assert s[..|pat|] != pat by {
        if |pat| <= |id| {
          assert s[..|pat|] == id[0..0 + |pat|];
          assert !OccursAt(pat, id, 0);
        } else {
          assert s[..|pat|][|id|] == pat[0] != pat[|id|];
        }
      }
      assert !Occurs(pat, id[1..]) by {
        if Occurs(pat, id[1..]) {
          OccursInTail(pat, id);
        }
      }
      assert s[1..] == id[1..] + pat;
      ReplaceDropsSuffix(id[1..], pat);
    }
  }

  /** Reference definition of replacing one character: each `c` becomes `rep`, every other
      character stays. */
  function ReplaceChar(s: string, c: char, rep: string): (r: string)
    ensures c !in rep ==> c !in r
    ensures |r| <= |s| * (if |rep| < 1 then 1 else |rep|)
  {
    if s == [] then [] else (if s[0] == c then rep else [s[0]]) + ReplaceChar(s[1..], c, rep)
  }

  /** With a one-character pattern `replace` is the character-by-character substitution. */
  lemma {:induction false} ReplaceOneChar(s: string, c: char, rep: string)
    ensures Replace(s, [c], rep) == ReplaceChar(s, c, rep)
    decreases |s|
  {
    if s != [] {
      assert s[..1] == [c] <==> s[0] == c;
      ReplaceOneChar(s[1..], c, rep);
    }
  }

  /** Python's `sep.join(xs)`. */
  function Join(xs: seq<string>, sep: string): string
  {
    if xs == [] then [] else if |xs| == 1 then xs[0] else xs[0] + sep + Join(xs[1..], sep)
  }
}

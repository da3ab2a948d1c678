/**
 * Normalisation of the free-text product search: the text is stripped of
 * surrounding whitespace, lower-cased and split into keywords on runs of
 * whitespace, following Python's `str.strip`, `str.lower` and `str.split()`
 * restricted to ASCII text.
 */
module SearchText {
  import opened Options

  /** Python's notion of an ASCII whitespace character: tab, line feed,
      vertical tab, form feed, carriage return, the four information
      separators 0x1C..0x1F, and space. */
  predicate IsSpace(c: char)
  {
    9 <= c as int <= 13 || 28 <= c as int <= 32
  }

  predicate IsUpper(c: char)
  {
    'A' <= c <= 'Z'
  }

  /** A keyword: non-empty and free of whitespace. */
  predicate IsWord(w: string)
  {
    |w| > 0 && forall j :: 0 <= j < |w| ==> !IsSpace(w[j])
  }

  predicate NoUpper(s: string)
  {
    forall j :: 0 <= j < |s| ==> !IsUpper(s[j])
  }

  predicate AllSpace(s: string)
  {
    forall j :: 0 <= j < |s| ==> IsSpace(s[j])
  }

  function LowerChar(c: char): (d: char)
    ensures !IsUpper(d)
    ensures IsSpace(d) <==> IsSpace(c)
    ensures IsUpper(c) ==> d as int == c as int + 32
    ensures !IsUpper(c) ==> d == c
  {
    if IsUpper(c) then (c as int + 32) as char else c
  }

  /** `str.lower` on ASCII text: upper-case letters become lower-case,
      every other character is kept, and nothing moves. */
  function Lower(s: string): (r: string)
    ensures |r| == |s|
    ensures NoUpper(r)
    ensures forall j :: 0 <= j < |s| ==> (IsSpace(r[j]) <==> IsSpace(s[j]))
    ensures forall j :: 0 <= j < |s| && IsUpper(s[j]) ==> r[j] as int == s[j] as int + 32
    ensures forall j :: 0 <= j < |s| && !IsUpper(s[j]) ==> r[j] == s[j]
  {
    seq(|s|, j requires 0 <= j < |s| => LowerChar(s[j]))
  }

  /** Lower-casing twice is lower-casing once. */
  lemma LowerIdempotent(s: string)
    ensures Lower(Lower(s)) == Lower(s)
  {
  }

  /** The length of the whitespace run `s` starts with. */
  function LeadingSpace(s: string): (n: nat)
    ensures n <= |s|
    ensures AllSpace(s[..n])
    ensures n == |s| || !IsSpace(s[n])
  {
    if s == [] || !IsSpace(s[0]) then 0 else 1 + LeadingSpace(s[1..])
  }

  /** The length of the whitespace run `s` ends with. */
  function TrailingSpace(s: string): (n: nat)
    ensures n <= |s|
    ensures AllSpace(s[|s| - n..])
    ensures n == |s| || !IsSpace(s[|s| - n - 1])
  {
    if s == [] || !IsSpace(s[|s| - 1]) then 0 else 1 + TrailingSpace(s[..|s| - 1])
  }

  /** The length of the non-whitespace run `s` starts with. */
  function LeadingWord(s: string): (n: nat)
    ensures n <= |s|
    ensures forall j :: 0 <= j < n ==> !IsSpace(s[j])
    ensures n == |s| || IsSpace(s[n])
  {
    if s == [] || IsSpace(s[0]) then 0 else 1 + LeadingWord(s[1..])
  }

  /** `str.strip()`: the text with its leading and trailing whitespace removed. */
  function Strip(s: string): (r: string)
    ensures exists a, b :: 0 <= a <= b <= |s| && r == s[a..b] && AllSpace(s[..a]) && AllSpace(s[b..])
    ensures r == [] || (!IsSpace(r[0]) && !IsSpace(r[|r| - 1]))
  {
    var a := LeadingSpace(s);
    var t := s[a..];
    var b := |t| - TrailingSpace(t);
    assert t[..b] == s[a..a + b];
    assert s[a + b..] == t[b..];
    t[..b]
  }

  /** Stripping twice is stripping once. */
  lemma StripIdempotent(s: string)
    ensures Strip(Strip(s)) == Strip(s)
  {
  }

  /** `str.split()` with no separator: the maximal runs of non-whitespace
      characters, in order. Runs of whitespace of any length separate words,
      and no empty word is produced. */
  function Split(s: string): (words: seq<string>)
    ensures forall i :: 0 <= i < |words| ==> IsWord(words[i])
    decreases |s|
  {
    var a := LeadingSpace(s);
    if a == |s| then []
    else
      var rest := s[a..];
      var n := LeadingWord(rest);
      [rest[..n]] + Split(rest[n..])
  }

  /** The words joined by single spaces. */
  function Join(words: seq<string>): string
  {
    if words == [] then []
    else if |words| == 1 then words[0]
    else words[0] + [' '] + Join(words[1..])
  }

  /** All characters of the words, without separators. */
  function Concat(words: seq<string>): string
  {
    if words == [] then [] else words[0] + Concat(words[1..])
  }

  /** The non-whitespace characters of `s`, in order. */
  function NonSpace(s: string): (r: string)
    ensures |r| <= |s|
  {
    if s == [] then []
    else if IsSpace(s[0]) then NonSpace(s[1..])
    else [s[0]] + NonSpace(s[1..])
  }

  /** The search-keyword list handed to the product query: no list when the
      search text is absent or empty, otherwise the words of the stripped,
      lower-cased text. A text made only of whitespace gives an empty list,
      not no list. */
  function Keywords(search: Option<string>): (r: Option<seq<string>>)
    ensures r.None? <==> (search.None? || search.value == [])
    ensures r.Some? ==> forall i :: 0 <= i < |r.value| ==> IsWord(r.value[i]) && NoUpper(r.value[i])
    ensures r.Some? ==> Concat(r.value) == NonSpace(Lower(search.value))
  {
    match search
    case None => None
    case Some(text) =>
      if text == [] then None
      else
        var words := Split(Lower(Strip(text)));
        SplitNoUpper(Lower(Strip(text)));
        SplitContents(Lower(Strip(text)));
        StripLowerNonSpace(text);
        Some(words)
  }

  // ---------------------------------------------------------------------
  // Lemmas about splitting

  lemma NonSpaceAppend(x: string, y: string)
    ensures NonSpace(x + y) == NonSpace(x) + NonSpace(y)
  {
    if x != [] {
      assert (x + y)[1..] == x[1..] + y;
      NonSpaceAppend(x[1..], y);
    } else {
      assert x + y == y;
    }
  }

  lemma {:induction false} NonSpaceOfSpaces(s: string)
    requires AllSpace(s)
    ensures NonSpace(s) == []
  {
    if s != [] {
      NonSpaceOfSpaces(s[1..]);
    }
  }

  lemma {:induction false} NonSpaceOfWord(s: string)
    requires forall j :: 0 <= j < |s| ==> !IsSpace(s[j])
    ensures NonSpace(s) == s
  {
    if s != [] {
      NonSpaceOfWord(s[1..]);
    }
  }

  /** Splitting loses nothing but whitespace: the words, put back together
      without separators, are exactly the non-whitespace characters. */
  lemma {:induction false} SplitContents(s: string)
    ensures Concat(Split(s)) == NonSpace(s)
    decreases |s|
  {
    var a := LeadingSpace(s);
    assert s == s[..a] + s[a..];
    NonSpaceAppend(s[..a], s[a..]);
    NonSpaceOfSpaces(s[..a]);
    if a == |s| {
      assert NonSpace(s[a..]) == [];
    } else {
      var rest := s[a..];
      var n := LeadingWord(rest);
      assert rest == rest[..n] + rest[n..];
      NonSpaceAppend(rest[..n], rest[n..]);
      NonSpaceOfWord(rest[..n]);
      SplitContents(rest[n..]);
      var words := Split(s);
      assert words == [rest[..n]] + Split(rest[n..]);
      assert words[1..] == Split(rest[n..]);
    }
  }

  lemma {:induction false} SplitNoUpper(s: string)
    requires NoUpper(s)
    ensures forall i :: 0 <= i < |Split(s)| ==> NoUpper(Split(s)[i])
    decreases |s|
  {
    var a := LeadingSpace(s);
    if a < |s| {
      var rest := s[a..];
      var n := LeadingWord(rest);
      SplitNoUpper(rest[n..]);
    }
  }

  /** Only the case of letters distinguishes the non-whitespace characters of
      the stripped, lower-cased text from those of the original text. */
  lemma StripLowerNonSpace(s: string)
    ensures NonSpace(Lower(Strip(s))) == NonSpace(Lower(s))
  {
    var a, b :| 0 <= a <= b <= |s| && Strip(s) == s[a..b] && AllSpace(s[..a]) && AllSpace(s[b..]);
    LowerSlice(s, a, b);
    NonSpaceOfPadded(Lower(s), a, b);
  }

  lemma LowerSlice(s: string, a: nat, b: nat)
    requires a <= b <= |s|
    ensures Lower(s[a..b]) == Lower(s)[a..b]
    ensures AllSpace(s[..a]) ==> AllSpace(Lower(s)[..a])
    ensures AllSpace(s[b..]) ==> AllSpace(Lower(s)[b..])
  {
  }

  /** Whitespace padding around a middle part contributes no characters. */
  lemma NonSpaceOfPadded(l: string, a: nat, b: nat)
    requires a <= b <= |l|
    requires AllSpace(l[..a]) && AllSpace(l[b..])
    ensures NonSpace(l[a..b]) == NonSpace(l)
  {
    assert l == l[..a] + l[a..b] + l[b..];
    NonSpaceAppend(l[..a] + l[a..b], l[b..]);
    NonSpaceAppend(l[..a], l[a..b]);
    NonSpaceOfSpaces(l[..a]);
    NonSpaceOfSpaces(l[b..]);
  }

  /** A text made only of whitespace has no words. */
  lemma SplitOfSpaces(s: string)
    requires AllSpace(s)
    ensures Split(s) == []
  {
  }

  /** Splitting the single-space join of a keyword list gives the list back. */
  lemma {:induction false} SplitJoinRoundTrip(words: seq<string>)
    requires forall i :: 0 <= i < |words| ==> IsWord(words[i])
    ensures Split(Join(words)) == words
  {
    if words == [] {
    } else if |words| == 1 {
      SplitWordThen(words[0], []);
      assert words[0] + [] == words[0];
      assert Split([]) == [];
    } else {
      var tail := Join(words[1..]);
      SplitJoinRoundTrip(words[1..]);
      assert Join(words) == words[0] + ([' '] + tail);
      SplitWordThen(words[0], [' '] + tail);
      SplitSkipsSpace(' ', tail);
    }
  }

  /** A word followed by text that is empty or starts with whitespace is
      split off as the first word. */
  lemma SplitWordThen(w: string, t: string)
    requires IsWord(w)
    requires t == [] || IsSpace(t[0])
    ensures Split(w + t) == [w] + Split(t)
  {
    var s := w + t;
    assert LeadingSpace(s) == 0;
    LeadingWordOf(w, t);
    assert s[..|w|] == w;
    assert s[|w|..] == t;
  }

  lemma {:induction false} LeadingWordOf(w: string, t: string)
    requires forall j :: 0 <= j < |w| ==> !IsSpace(w[j])
    requires t == [] || IsSpace(t[0])
    ensures LeadingWord(w + t) == |w|
  {
    if w != [] {
      assert (w + t)[1..] == w[1..] + t;
      LeadingWordOf(w[1..], t);
    } else {
      assert w + t == t;
    }
  }

  /** A leading whitespace character, of any kind, does not change the words. */
  lemma SplitSkipsSpace(c: char, t: string)
    requires IsSpace(c)
    ensures Split([c] + t) == Split(t)
  {
    var s := [c] + t;
    assert s[1..] == t;
    assert LeadingSpace(s) == 1 + LeadingSpace(t);
    assert s[LeadingSpace(s)..] == t[LeadingSpace(t)..];
  }
}

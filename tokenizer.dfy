/** The shared whitespace splitter of the abstract Tokenizer class: sequence.trim().split("\\s+"). */
module Tokenizer {

  /** The characters String.trim removes from both ends: every code point up to U+0020. */
  predicate IsTrimmable(c: char) {
    c <= ' '
  }

  /** The class \s of java.util.regex: space, tab, newline, vertical tab, form feed, carriage return. */
  predicate IsSpace(c: char) {
    c == ' ' || 9 <= c as int <= 13
  }

  /** The first index of s at or after lo whose character String.trim keeps, or |s|. */
  function TrimStart(s: string, lo: nat): (a: nat)
    requires lo <= |s|
    ensures lo <= a <= |s|
    ensures forall i :: lo <= i < a ==> IsTrimmable(s[i])
    ensures a < |s| ==> !IsTrimmable(s[a])
    decreases |s| - lo
  {
    if lo < |s| && IsTrimmable(s[lo]) then TrimStart(s, lo + 1) else lo
  }

  /** The index just past the last character in [lo, hi) that String.trim keeps, or lo. */
  function TrimEnd(s: string, lo: nat, hi: nat): (b: nat)
    requires lo <= hi <= |s|
    ensures lo <= b <= hi
    ensures forall i :: b <= i < hi ==> IsTrimmable(s[i])
    ensures b > lo ==> !IsTrimmable(s[b - 1])
    decreases hi
  {
    if hi > lo && IsTrimmable(s[hi - 1]) then TrimEnd(s, lo, hi - 1) else hi
  }

  /** String.trim: the slice s[a..b] between the first and after the last character above
      U+0020; every character before a and from b on is at most U+0020. */
  function Trim(s: string): (t: string)
    ensures t == [] || (!IsTrimmable(t[0]) && !IsTrimmable(t[|t| - 1]))
    ensures var a := TrimStart(s, 0);
      && a + |t| <= |s| && t == s[a..a + |t|]
      && (forall i :: 0 <= i < a ==> IsTrimmable(s[i]))
      && (forall i :: a + |t| <= i < |s| ==> IsTrimmable(s[i]))
  {
    var a := TrimStart(s, 0);
    s[a..TrimEnd(s, a, |s|)]
  }

  /** Number of leading characters of s that are not whitespace. */
  function WordLength(s: string): (n: nat)
    ensures n <= |s|
    ensures forall i :: 0 <= i < n ==> !IsSpace(s[i])
    ensures n < |s| ==> IsSpace(s[n])
  {
    if s == [] || IsSpace(s[0]) then 0 else 1 + WordLength(s[1..])
  }

  /** The pieces of s between runs of whitespace, with no empty piece. */
  function Fields(s: string): (ws: seq<string>)
    decreases |s|
  {
    if s == [] then []
    else if IsSpace(s[0]) then Fields(s[1..])
    else
      var n := WordLength(s);
      [s[..n]] + Fields(s[n..])
  }

  /** Tokenizer.whitespaceTokenize. Java's split returns the input itself, here the empty
      string, when there is nothing to split; otherwise the trimmed string has no whitespace
      at either end, so split("\\s+") yields exactly its fields. */
  function WhitespaceTokenize(sequence: string): (tokens: seq<string>)
    ensures |tokens| >= 1
    ensures forall i :: 0 <= i < |tokens| ==> HasNoSpace(tokens[i])
  {
    var t := Trim(sequence);
    if t == [] then [""]
    else
      FieldsAreWords(t);
      FieldsNonEmpty(t);
      Fields(t)
  }

  /** The elements joined with one space between neighbours (String.join(" ", ...)). */
  function Join(ws: seq<string>): string
  {
    if ws == [] then ""
    else if |ws| == 1 then ws[0]
    else ws[0] + " " + Join(ws[1..])
  }

  /** s with every run of whitespace replaced by a single space, read character by character;
      afterSpace says whether the preceding character was whitespace. */
  function CollapseFrom(s: string, afterSpace: bool): string
  {
    if s == [] then ""
    else if IsSpace(s[0]) then (if afterSpace then "" else " ") + CollapseFrom(s[1..], true)
    else [s[0]] + CollapseFrom(s[1..], false)
  }

  function Collapse(s: string): string {
    CollapseFrom(s, false)
  }

  predicate HasNoSpace(w: string) {
    forall j :: 0 <= j < |w| ==> !IsSpace(w[j])
  }

  /** Every field is non-empty and holds no whitespace. */
  lemma {:induction false} FieldsAreWords(s: string)
    ensures forall i :: 0 <= i < |Fields(s)| ==> Fields(s)[i] != "" && HasNoSpace(Fields(s)[i])
    decreases |s|
  {
    if s == [] {
    } else if IsSpace(s[0]) {
      FieldsAreWords(s[1..]);
    } else {
      var n := WordLength(s);
      FieldsAreWords(s[n..]);
      var ws := Fields(s);
      assert ws == [s[..n]] + Fields(s[n..]);
      forall i | 0 <= i < |ws| ensures ws[i] != "" && HasNoSpace(ws[i]) {
        if i > 0 { assert ws[i] == Fields(s[n..])[i - 1]; }
      }
    }
  }

  /** A string with a non-whitespace character has at least one field. */
  lemma {:induction false} FieldsNonEmpty(s: string)
    requires s != [] && !IsSpace(s[|s| - 1])
    ensures Fields(s) != []
    decreases |s|
  {
    if IsSpace(s[0]) {
      FieldsNonEmpty(s[1..]);
    }
  }

  /** A word is copied unchanged by the collapsing scan. */
  lemma {:induction false} CollapseWord(s: string, n: nat, afterSpace: bool)
    requires 0 < n <= |s| && forall i :: 0 <= i < n ==> !IsSpace(s[i])
    ensures CollapseFrom(s, afterSpace) == s[..n] + CollapseFrom(s[n..], false)
    decreases n
  {
    if n > 1 {
      CollapseWord(s[1..], n - 1, false);
      assert s[1..][n - 1..] == s[n..];
      assert [s[0]] + s[1..][..n - 1] == s[..n];
    }
  }

  /** Joining the fields with single spaces gives the collapsed string, provided s does not
      end in whitespace (leading whitespace is dropped by both sides). */
  lemma {:induction false} JoinFields(s: string)
    requires s == [] || !IsSpace(s[|s| - 1])
    ensures Join(Fields(s)) == CollapseFrom(s, true)
    decreases |s|
  {
    if s == [] {
    } else if IsSpace(s[0]) {
      JoinFields(s[1..]);
    } else {
      var n := WordLength(s);
      CollapseWord(s, n, true);
      if n < |s| {
        var rest := s[n + 1..];
        assert rest == s[n..][1..];
        JoinFields(rest);
        FieldsNonEmpty(rest);
        assert Fields(s[n..]) == Fields(rest);
        assert CollapseFrom(s[n..], false) == " " + CollapseFrom(rest, true);
      } else {
        assert s[n..] == [];
      }
    }
  }

  /** No element of whitespaceTokenize(s) contains whitespace; when s.trim() is non-empty
      every element is non-empty; an empty or all-whitespace s gives the single element "". */
  lemma WhitespaceTokenizeElements(s: string)
    ensures forall i :: 0 <= i < |WhitespaceTokenize(s)| ==> HasNoSpace(WhitespaceTokenize(s)[i])
    ensures Trim(s) != [] ==> forall i :: 0 <= i < |WhitespaceTokenize(s)| ==> WhitespaceTokenize(s)[i] != ""
    ensures Trim(s) == [] <==> WhitespaceTokenize(s) == [""]
    ensures |WhitespaceTokenize(s)| >= 1
  {
    var t := Trim(s);
    if t != [] {
      FieldsAreWords(t);
      assert !IsSpace(t[|t| - 1]);
      FieldsNonEmpty(t);
      assert Fields(t)[0] != "";
    }
  }

  /** The tokens, joined with single spaces, are s.trim() with every whitespace run collapsed
      to one space: nothing is lost, reordered or added apart from the separators. */
  lemma WhitespaceTokenizeJoin(s: string)
    ensures Join(WhitespaceTokenize(s)) == Collapse(Trim(s))
  {
    var t := Trim(s);
    if t != [] {
      JoinFields(t);
      assert CollapseFrom(t, true) == CollapseFrom(t, false);
    }
  }
}

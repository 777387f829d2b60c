/** Competition slugs, for titles in ASCII. */
module Slugs {

  function Lower(c: char): char {
    if 'A' <= c <= 'Z' then (c as int + 32) as char else c
  }

  predicate IsWordChar(c: char) {
    'a' <= c <= 'z' || '0' <= c <= '9'
  }

  /** In code points: the capitals 65 to 90 go to the small letters 97 to 122 in order, nothing else
      changes, and words are of small letters and of the digits 48 to 57. */
  lemma Alphabet(c: char)
    ensures var x, y := c as int, Lower(c) as int;
      if 65 <= x <= 90 then 97 <= y <= 122 && y - 97 == x - 65 else y == x
    ensures IsWordChar(c) <==> 97 <= c as int <= 122 || 48 <= c as int <= 57
  {
  }

  /** The white space String.trim removes, as far as it is ASCII. */
  predicate IsSpace(c: char) {
    c as int in {9, 10, 11, 12, 13, 32}
  }

  function Lowered(s: string): (r: string)
    ensures |r| == |s| && forall i :: 0 <= i < |s| ==> r[i] == Lower(s[i])
  {
    seq(|s|, i requires 0 <= i < |s| => Lower(s[i]))
  }

  function Trimmed(s: string): string {
    if s != "" && IsSpace(s[0]) then Trimmed(s[1..])
    else if s != "" && IsSpace(s[|s| - 1]) then Trimmed(s[..|s| - 1])
    else s
  }

  /** Every maximal run of other characters becomes one dash. */
  function Dashed(s: string): string {
    if s == "" then ""
    else
      var front, c := Dashed(s[..|s| - 1]), s[|s| - 1];
      if IsWordChar(c) then front + [c]
      else if front != "" && front[|front| - 1] == '-' then front
      else front + "-"
  }

  /** One dash off each end. */
  function Stripped(s: string): string {
    var t := if s != "" && s[0] == '-' then s[1..] else s;
    if t != "" && t[|t| - 1] == '-' then t[..|t| - 1] else t
  }

  function Slugify(title: string): string {
    Stripped(Dashed(Trimmed(Lowered(title))))
  }

  /** Words of letters and digits with single dashes between them. */
  predicate IsSlug(s: string) {
    && (forall i :: 0 <= i < |s| ==> IsWordChar(s[i]) || s[i] == '-')
    && (forall i :: 0 <= i < |s| - 1 ==> !(s[i] == '-' && s[i + 1] == '-'))
    && (s != "" ==> s[0] != '-' && s[|s| - 1] != '-')
  }

  /** The letters and digits of a string, in order. */
  function WordChars(s: string): string {
    if s == "" then ""
    else WordChars(s[..|s| - 1]) + if IsWordChar(s[|s| - 1]) then [s[|s| - 1]] else []
  }

  lemma {:induction false} DashedShape(s: string)
    ensures var r := Dashed(s);
      && (forall i :: 0 <= i < |r| ==> IsWordChar(r[i]) || r[i] == '-')
      && (forall i :: 0 <= i < |r| - 1 ==> !(r[i] == '-' && r[i + 1] == '-'))
    ensures WordChars(Dashed(s)) == WordChars(s)
  {
    if s != "" {
      DashedShape(s[..|s| - 1]);
      var front, r := Dashed(s[..|s| - 1]), Dashed(s);
      if r != front {
        assert r[..|r| - 1] == front;
      }
      assert WordChars(front) + "" == WordChars(front);
    }
  }

  lemma {:induction false} WordCharsDropFirst(s: string)
    requires s != "" && !IsWordChar(s[0])
    ensures WordChars(s[1..]) == WordChars(s)
  {
    if |s| > 1 {
      WordCharsDropFirst(s[..|s| - 1]);
      assert s[1..][..|s| - 2] == s[..|s| - 1][1..];
    } else {
      assert s[..0] == "" && s[1..] == "";
    }
  }

  lemma WordCharsDropLast(s: string)
    requires s != "" && !IsWordChar(s[|s| - 1])
    ensures WordChars(s[..|s| - 1]) == WordChars(s)
  {
  }

  lemma {:induction false} TrimmedKeeps(s: string)
    ensures WordChars(Trimmed(s)) == WordChars(s)
  {
    if s != "" && IsSpace(s[0]) {
      TrimmedKeeps(s[1..]);
      WordCharsDropFirst(s);
    } else if s != "" && IsSpace(s[|s| - 1]) {
      TrimmedKeeps(s[..|s| - 1]);
      WordCharsDropLast(s);
    }
  }

  lemma StrippedKeeps(s: string)
    ensures WordChars(Stripped(s)) == WordChars(s)
  {
    var t := if s != "" && s[0] == '-' then s[1..] else s;
    if s != "" && s[0] == '-' {
      WordCharsDropFirst(s);
    }
    if t != "" && t[|t| - 1] == '-' {
      WordCharsDropLast(t);
    }
  }

  /** Every slug is well formed, and no letter or digit of the title is lost, added or moved. */
  lemma SlugIsWellFormed(title: string)
    ensures IsSlug(Slugify(title))
    ensures WordChars(Slugify(title)) == WordChars(Lowered(title))
  {
    DashedShape(Trimmed(Lowered(title)));
    TrimmedKeeps(Lowered(title));
    StrippedKeeps(Dashed(Trimmed(Lowered(title))));
  }

  lemma {:induction false} DashedOfShaped(s: string)
    requires forall i :: 0 <= i < |s| ==> IsWordChar(s[i]) || s[i] == '-'
    requires forall i :: 0 <= i < |s| - 1 ==> !(s[i] == '-' && s[i + 1] == '-')
    ensures Dashed(s) == s
  {
    if s != "" {
      DashedOfShaped(s[..|s| - 1]);
      assert s == s[..|s| - 1] + [s[|s| - 1]];
    }
  }

  /** The slugs are exactly the strings that slugify leaves alone, so doing it twice changes nothing. */
  lemma SlugsAreTheFixedPoints(s: string)
    ensures IsSlug(s) <==> Slugify(s) == s
    ensures Slugify(Slugify(s)) == Slugify(s)
  {
    SlugIsWellFormed(s);
    SlugStays(Slugify(s));
    if IsSlug(s) {
      SlugStays(s);
    }
  }

  lemma SlugStays(s: string)
    requires IsSlug(s)
    ensures Slugify(s) == s
  {
    assert Lowered(s) == s;
    assert Trimmed(s) == s;
    DashedOfShaped(s);
  }

  // ---------- Words ----------

  /** The maximal runs of letters and digits. */
  function Words(s: string): (r: seq<string>)
    ensures s != "" && IsWordChar(s[|s| - 1]) ==> r != []
  {
    if s == "" then []
    else
      var n := |s| - 1;
      var front := Words(s[..n]);
      if !IsWordChar(s[n]) then front
      else if n > 0 && IsWordChar(s[n - 1]) then front[..|front| - 1] + [front[|front| - 1] + [s[n]]]
      else front + [[s[n]]]
  }

  lemma {:induction false} DashedWords(s: string)
    ensures Words(Dashed(s)) == Words(s)
    ensures s != "" ==> Dashed(s) != "" && (IsWordChar(Dashed(s)[|Dashed(s)| - 1]) <==> IsWordChar(s[|s| - 1]))
  {
    hide Words, IsWordChar;
    if s == "" {
      assert Dashed(s) == s;
    } else {
      var n := |s| - 1;
      DashedWords(s[..n]);
      DashedStep(s[..n], s[n]);
      assert s[..n] + [s[n]] == s;
      WordsAppend(s[..n], s[n]);
      WordsAppend(Dashed(s[..n]), s[n]);
      WordsAppend(Dashed(s[..n]), '-');
    }
  }

  lemma DashedStep(s: string, c: char)
    ensures Dashed(s + [c]) ==
      if IsWordChar(c) then Dashed(s) + [c]
      else if Dashed(s) != "" && Dashed(s)[|Dashed(s)| - 1] == '-' then Dashed(s)
      else Dashed(s) + ['-']
    ensures !IsWordChar('-')
  {
    assert (s + [c])[..|s|] == s;
  }

  function EndsInWord(s: string): bool {
    s != "" && IsWordChar(s[|s| - 1])
  }

  /** One more character. */
  lemma WordsAppend(s: string, c: char)
    ensures Words(s + [c]) ==
      if !IsWordChar(c) then Words(s)
      else if EndsInWord(s) then Words(s)[..|Words(s)| - 1] + [Words(s)[|Words(s)| - 1] + [c]]
      else Words(s) + [[c]]
  {
    assert (s + [c])[..|s|] == s;
  }

  lemma {:induction false} WordsDropFirst(s: string)
    requires s != "" && !IsWordChar(s[0])
    ensures Words(s[1..]) == Words(s)
  {
    if |s| > 1 {
      WordsDropFirst(s[..|s| - 1]);
      assert s[1..][..|s| - 2] == s[..|s| - 1][1..];
    } else {
      assert s[..0] == "" && s[1..] == "";
    }
  }

  lemma {:induction false} TrimmedWords(s: string)
    ensures Words(Trimmed(s)) == Words(s)
  {
    if s != "" && IsSpace(s[0]) {
      TrimmedWords(s[1..]);
      WordsDropFirst(s);
    } else if s != "" && IsSpace(s[|s| - 1]) {
      TrimmedWords(s[..|s| - 1]);
    }
  }

  /** The words of a slug are the words of the title in small letters: two of them are never joined, and
      none is split. */
  lemma SlugKeepsWords(title: string)
    ensures Words(Slugify(title)) == Words(Lowered(title))
  {
    var s := Dashed(Trimmed(Lowered(title)));
    TrimmedWords(Lowered(title));
    DashedWords(Trimmed(Lowered(title)));
    if s != "" && s[0] == '-' {
      WordsDropFirst(s);
    }
  }
}

/**
 * The n-gram builders of a review: sliding windows of `n` consecutive words
 * over the word sequence the cleaned text splits into, each window joined
 * with single spaces.  The words come from splitting on single spaces, so
 * none of them contains a space, and splitting a window's text on spaces
 * gives the window back.
 */
module NGrams {

  /** A word as splitting on `' '` produces it: it holds no space. */
  predicate SpaceFree(w: string)
  {
    forall i :: 0 <= i < |w| ==> w[i] != ' '
  }

  predicate AllSpaceFree(ws: seq<string>)
  {
    forall i :: 0 <= i < |ws| ==> SpaceFree(ws[i])
  }

  /** The words of `ws` separated by single spaces. */
  function Join(ws: seq<string>): string
  {
    if |ws| == 0 then ""
    else if |ws| == 1 then ws[0]
    else ws[0] + " " + Join(ws[1..])
  }

  /** Number of spaces in `s`. */
  function Spaces(s: string): nat
  {
    if |s| == 0 then 0 else (if s[0] == ' ' then 1 else 0) + Spaces(s[1..])
  }

  /** The fields of `s` between its spaces, in order, empty ones included: one more than there are spaces. */
  function Split(s: string): (ws: seq<string>)
    ensures |ws| == Spaces(s) + 1
  {
    if |s| == 0 then [""]
    else
      var rest := Split(s[1..]);
      if s[0] == ' ' then [""] + rest
      else [[s[0]] + rest[0]] + rest[1..]
  }

  /** A space-free word is a single field. */
  lemma {:induction false} SplitWord(w: string)
    requires SpaceFree(w)
    ensures Split(w) == [w]
  {
    if |w| > 0 {
      SplitWord(w[1..]);
      assert [w[0]] + w[1..] == w;
    }
  }

  /** A space-free word followed by a space is the first field, and the rest splits on its own. */
  lemma {:induction false} SplitFirst(w: string, t: string)
    requires SpaceFree(w)
    ensures Split(w + " " + t) == [w] + Split(t)
  {
    if |w| == 0 {
      assert w + " " + t == [' '] + t;
      assert (w + " " + t)[1..] == t;
    } else {
      var s := w + " " + t;
      assert s[1..] == w[1..] + " " + t;
      SplitFirst(w[1..], t);
      assert [w[0]] + w[1..] == w;
    }
  }

  /** Round trip: splitting the joined words gives the words back. */
  lemma {:induction false} SplitJoin(ws: seq<string>)
    requires |ws| > 0 && AllSpaceFree(ws)
    ensures Split(Join(ws)) == ws
  {
    if |ws| == 1 {
      SplitWord(ws[0]);
    } else {
      assert SpaceFree(ws[0]);
      SplitFirst(ws[0], Join(ws[1..]));
      SplitJoin(ws[1..]);
    }
  }

  /** The other round trip: joining the fields of any text with single spaces gives the text back. */
  lemma {:induction false} JoinSplit(s: string)
    ensures Join(Split(s)) == s
  {
    if |s| > 0 {
      var rest := Split(s[1..]);
      JoinSplit(s[1..]);
      if s[0] == ' ' {
        assert ([""] + rest)[1..] == rest;
        assert s == [' '] + s[1..];
      } else if |rest| == 1 {
        assert s == [s[0]] + s[1..];
      } else {
        var ws := [[s[0]] + rest[0]] + rest[1..];
        assert ws[1..] == rest[1..];
        assert s == [s[0]] + s[1..];
      }
    }
  }

  /** Every field of a split is space-free. */
  lemma {:induction false} SplitSpaceFree(s: string)
    ensures AllSpaceFree(Split(s))
  {
    if |s| > 0 {
      SplitSpaceFree(s[1..]);
      var rest := Split(s[1..]);
      if s[0] != ' ' {
        assert SpaceFree(rest[0]);
        assert forall i :: 1 <= i < |rest| ==> SpaceFree(rest[i]);
      }
    }
  }

  /** `ws` without its trailing empty strings. */
  function DropTrailingEmpty(ws: seq<string>): (r: seq<string>)
    ensures |r| <= |ws| && r == ws[..|r|]
    ensures |r| == 0 || r[|r| - 1] != ""
    ensures forall i :: |r| <= i < |ws| ==> ws[i] == ""
  {
    if |ws| == 0 then []
    else if ws[|ws| - 1] == "" then DropTrailingEmpty(ws[..|ws| - 1])
    else ws
  }

  /**
   * Java's `s.split(" ")`: a text without a space is its own only field;
   * otherwise the fields between the spaces, leading empty ones kept and
   * trailing empty ones dropped.
   */
  function JavaSplit(s: string): (ws: seq<string>)
    ensures AllSpaceFree(ws)
  {
    SplitSpaceFree(s);
    if SpaceFree(s) then [s] else DropTrailingEmpty(Split(s))
  }

  /** Words joined with single spaces contain a space as soon as there are two of them. */
  lemma JoinHasSpace(ws: seq<string>)
    requires |ws| >= 2
    ensures !SpaceFree(Join(ws))
  {
    assert Join(ws)[|ws[0]|] == ' ';
  }

  /**
   * The round trip through Java's split: it gives the words back when the
   * last of them is not empty (an empty last word is dropped, see
   * `JavaSplitDropsEmptyLastWord`).
   */
  lemma JavaSplitJoin(ws: seq<string>)
    requires |ws| > 0 && AllSpaceFree(ws) && ws[|ws| - 1] != ""
    ensures JavaSplit(Join(ws)) == ws
  {
    SplitJoin(ws);
    if |ws| >= 2 {
      JoinHasSpace(ws);
    } else {
      assert Join(ws) == ws[0];
    }
  }

  /** Java's split differs from the field-keeping `Split` on a text ending in a space. */
  lemma JavaSplitDropsEmptyLastWord()
    ensures Split(Join(["a", ""])) == ["a", ""]
    ensures JavaSplit(Join(["a", ""])) == ["a"]
  {
    assert Join(["a", ""]) == "a ";
    assert Split(" ") == ["", ""] by {
      assert " "[1..] == "";
    }
    assert Split("a ") == ["a", ""] by {
      assert "a "[1..] == " " && "a "[0] == 'a';
      assert ['a'] + "" == "a";
      assert ["", ""][1..] == [""];
    }
    assert "a "[1] == ' ';
  }

  /** No two spaces in a row. */
  predicate NoDoubleSpace(s: string)
  {
    forall i :: 0 < i < |s| ==> s[i - 1] != ' ' || s[i] != ' '
  }

  /**
   * A text as the cleaning leaves it: whitespace runs collapsed to a single
   * space and the ends trimmed.
   */
  predicate Cleaned(s: string)
  {
    |s| == 0 || (s[0] != ' ' && s[|s| - 1] != ' ' && NoDoubleSpace(s))
  }

  /** Past the first field, no field of a text without double or trailing spaces is empty; the first is empty only after a leading space. */
  lemma {:induction false} FieldsNonEmpty(s: string)
    requires |s| > 0 && s[|s| - 1] != ' ' && NoDoubleSpace(s)
    ensures forall i :: 1 <= i < |Split(s)| ==> Split(s)[i] != ""
    ensures s[0] != ' ' ==> Split(s)[0] != ""
  {
    if |s| > 1 {
      var t := s[1..];
      assert t[|t| - 1] == s[|s| - 1];
      assert NoDoubleSpace(t) by {
        forall i | 0 < i < |t| ensures t[i - 1] != ' ' || t[i] != ' ' {
          assert t[i - 1] == s[i] && t[i] == s[i + 1];
        }
      }
      FieldsNonEmpty(t);
      if s[0] == ' ' {
        assert t[0] == s[1];
      }
    }
  }

  /**
   * The words of a cleaned text: Java's split and the field-keeping `Split`
   * agree, and no word is empty unless the whole text is.
   */
  lemma CleanedWords(s: string)
    requires Cleaned(s)
    ensures JavaSplit(s) == Split(s)
    ensures |s| > 0 ==> forall i :: 0 <= i < |Split(s)| ==> Split(s)[i] != ""
  {
    if |s| == 0 {
      assert Split(s) == [""];
    } else {
      FieldsNonEmpty(s);
      if SpaceFree(s) {
        SplitWord(s);
      }
    }
  }

  /** Joining is one-to-one on non-empty sequences of space-free words. */
  lemma JoinInjective(ws: seq<string>, vs: seq<string>)
    requires |ws| > 0 && |vs| > 0 && AllSpaceFree(ws) && AllSpaceFree(vs)
    ensures Join(ws) == Join(vs) <==> ws == vs
  {
    SplitJoin(ws);
    SplitJoin(vs);
  }

  /**
   * Every window of `n` consecutive words of `parts`, joined, in order of
   * its first word.  There are `max(0, |parts| - n + 1)` of them: none with
   * fewer than `n` words, otherwise one per word that leaves room for `n`.
   */
  function NGrams(parts: seq<string>, n: nat): (r: seq<string>)
    requires n > 0
    ensures |r| == if |parts| < n then 0 else |parts| - n + 1
    ensures |parts| < n <==> r == []
  {
    if |parts| < n then []
    else seq(|parts| - n + 1, i requires 0 <= i <= |parts| - n => Join(parts[i..i + n]))
  }

  /** Splitting entry `i` on spaces gives back the words `parts[i..i + n]`, in order. */
  lemma NGramSplits(parts: seq<string>, n: nat, i: nat)
    requires n > 0 && AllSpaceFree(parts) && i < |NGrams(parts, n)|
    ensures i + n <= |parts|
    ensures Split(NGrams(parts, n)[i]) == parts[i..i + n]
  {
    SplitJoin(parts[i..i + n]);
  }

  /** Two entries have the same text exactly when their windows hold the same words. */
  lemma NGramsDistinctWindows(parts: seq<string>, n: nat, i: nat, j: nat)
    requires n > 0 && AllSpaceFree(parts) && i < |NGrams(parts, n)| && j < |NGrams(parts, n)|
    ensures NGrams(parts, n)[i] == NGrams(parts, n)[j] <==> parts[i..i + n] == parts[j..j + n]
  {
    JoinInjective(parts[i..i + n], parts[j..j + n]);
  }

  /**
   * For the words of a cleaned text, as the builders get them, Java's split
   * of every entry gives back exactly its window.
   */
  lemma NGramJavaSplits(text: string, n: nat, i: nat)
    requires Cleaned(text) && |text| > 0 && n > 0 && i < |NGrams(JavaSplit(text), n)|
    ensures i + n <= |JavaSplit(text)|
    ensures JavaSplit(NGrams(JavaSplit(text), n)[i]) == JavaSplit(text)[i..i + n]
  {
    var parts := JavaSplit(text);
    CleanedWords(text);
    var w := parts[i..i + n];
    assert w[n - 1] == parts[i + n - 1] != "";
    assert AllSpaceFree(w) by {
      forall j | 0 <= j < n ensures SpaceFree(w[j]) {
        assert w[j] == parts[i + j];
      }
    }
    assert NGrams(parts, n)[i] == Join(w);
    JavaSplitJoin(w);
  }

  lemma Join2(a: string, b: string)
    ensures Join([a, b]) == a + " " + b
  {
    assert [a, b][1..] == [b];
  }

  lemma Join3(a: string, b: string, c: string)
    ensures Join([a, b, c]) == a + " " + b + " " + c
  {
    assert [a, b, c][1..] == [b, c];
    Join2(b, c);
  }

  lemma Join4(a: string, b: string, c: string, d: string)
    ensures Join([a, b, c, d]) == a + " " + b + " " + c + " " + d
  {
    assert [a, b, c, d][1..] == [b, c, d];
    Join3(b, c, d);
  }

  lemma Join5(a: string, b: string, c: string, d: string, e: string)
    ensures Join([a, b, c, d, e]) == a + " " + b + " " + c + " " + d + " " + e
  {
    assert [a, b, c, d, e][1..] == [b, c, d, e];
    Join4(b, c, d, e);
  }

  /** The bigrams: each word joined with the next. */
  method TwoSentences(parts: seq<string>) returns (result: seq<string>)
    ensures result == NGrams(parts, 2)
  {
    result := [];
    var i := 0;
    while i < |parts| - 1
      invariant 0 <= i && (|parts| >= 2 ==> i <= |parts| - 1)
      invariant |parts| < 2 ==> i == 0
      invariant |result| == i && forall j :: 0 <= j < i ==> j + 2 <= |parts| && result[j] == Join(parts[j..j + 2])
    {
      assert parts[i..i + 2] == [parts[i], parts[i + 1]];
      Join2(parts[i], parts[i + 1]);
      result := result + [parts[i] + " " + parts[i + 1]];
      i := i + 1;
    }
  }

  /** The trigrams: each window of three consecutive words. */
  method ThreeSentences(parts: seq<string>) returns (result: seq<string>)
    ensures result == NGrams(parts, 3)
  {
    result := [];
    var i := 0;
    while i < |parts| - 2
      invariant 0 <= i && (|parts| >= 3 ==> i <= |parts| - 2)
      invariant |parts| < 3 ==> i == 0
      invariant |result| == i && forall j :: 0 <= j < i ==> j + 3 <= |parts| && result[j] == Join(parts[j..j + 3])
    {
      assert parts[i..i + 3] == [parts[i], parts[i + 1], parts[i + 2]];
      Join3(parts[i], parts[i + 1], parts[i + 2]);
      result := result + [parts[i] + " " + parts[i + 1] + " " + parts[i + 2]];
      i := i + 1;
    }
  }

  /** The four-grams: each window of four consecutive words. */
  method FourSentences(parts: seq<string>) returns (result: seq<string>)
    ensures result == NGrams(parts, 4)
  {
    result := [];
    var i := 0;
    while i < |parts| - 3
      invariant 0 <= i && (|parts| >= 4 ==> i <= |parts| - 3)
      invariant |parts| < 4 ==> i == 0
      invariant |result| == i && forall j :: 0 <= j < i ==> j + 4 <= |parts| && result[j] == Join(parts[j..j + 4])
    {
      assert parts[i..i + 4] == [parts[i], parts[i + 1], parts[i + 2], parts[i + 3]];
      Join4(parts[i], parts[i + 1], parts[i + 2], parts[i + 3]);
      result := result + [parts[i] + " " + parts[i + 1] + " " + parts[i + 2] + " " + parts[i + 3]];
      i := i + 1;
    }
  }

  /** The five-grams: each window of five consecutive words. */
  method Fivegrams(parts: seq<string>) returns (result: seq<string>)
    ensures result == NGrams(parts, 5)
  {
    result := [];
    var i := 0;
    while i < |parts| - 4
      invariant 0 <= i && (|parts| >= 5 ==> i <= |parts| - 4)
      invariant |parts| < 5 ==> i == 0
      invariant |result| == i && forall j :: 0 <= j < i ==> j + 5 <= |parts| && result[j] == Join(parts[j..j + 5])
    {
      assert parts[i..i + 5] == [parts[i], parts[i + 1], parts[i + 2], parts[i + 3], parts[i + 4]];
      Join5(parts[i], parts[i + 1], parts[i + 2], parts[i + 3], parts[i + 4]);
      result := result + [parts[i] + " " + parts[i + 1] + " " + parts[i + 2] + " " + parts[i + 3] + " " + parts[i + 4]];
      i := i + 1;
    }
  }

  /** Every n-gram of the review for `n` from 2 to 5: the bigrams first, then the longer windows. */
  function AllNGrams(parts: seq<string>): (r: seq<string>)
    ensures |parts| < 2 <==> r == []
  {
    NGrams(parts, 2) + NGrams(parts, 3) + NGrams(parts, 4) + NGrams(parts, 5)
  }

  /** The four lists, appended in order. */
  method Sentences(parts: seq<string>) returns (result: seq<string>)
    ensures result == AllNGrams(parts)
  {
    result := [];
    var two := TwoSentences(parts);
    result := result + two;
    var three := ThreeSentences(parts);
    result := result + three;
    var four := FourSentences(parts);
    result := result + four;
    var five := Fivegrams(parts);
    result := result + five;
  }

  /**
   * The combined list has one entry per window of every width (with
   * `p >= 5` words that is `4p - 10`), the bigrams first and the trigrams
   * right after them.
   */
  lemma AllNGramsLayout(parts: seq<string>)
    ensures |AllNGrams(parts)| == |NGrams(parts, 2)| + |NGrams(parts, 3)| + |NGrams(parts, 4)| + |NGrams(parts, 5)|
    ensures |parts| >= 5 ==> |AllNGrams(parts)| == 4 * |parts| - 10
    ensures AllNGrams(parts)[..|NGrams(parts, 2)|] == NGrams(parts, 2)
    ensures var b := |NGrams(parts, 2)|; AllNGrams(parts)[b..b + |NGrams(parts, 3)|] == NGrams(parts, 3)
  {
  }
}

/** A name read as a sequence of words: the view in which the converters split at word boundaries. */
module Words {
  import opened Ascii
  import opened Patterns

  /** The words written one after another. */
  function Concat(ws: seq<string>): string
  {
    if |ws| == 0 then [] else ws[0] + Concat(ws[1..])
  }

  /** The words with `sep` between each adjacent pair. */
  function Join(ws: seq<string>, sep: char): string
  {
    if |ws| == 0 then []
    else if |ws| == 1 then ws[0]
    else ws[0] + ([sep] + Join(ws[1..], sep))
  }

  /** Every word is non-empty and boundary-free, and adjacent words meet at a boundary. */
  predicate IsWordSplit(ws: seq<string>)
  {
    |ws| == 0 ||
    (|ws[0]| > 0 && BoundaryCount(ws[0]) == 0
     && (|ws| > 1 ==> |ws[1]| > 0 && IsBoundary(ws[0][|ws[0]| - 1], ws[1][0]))
     && IsWordSplit(ws[1..]))
  }

  lemma {:induction false} ConcatHead(ws: seq<string>)
    requires |ws| > 0 && |ws[0]| > 0
    ensures |Concat(ws)| > 0 && Concat(ws)[0] == ws[0][0]
  {
  }

  /** Separating a name made of words inserts the separator exactly between the words. */
  lemma {:induction false} SeparatedWords(ws: seq<string>, sep: char)
    requires IsWordSplit(ws)
    ensures Separated(Concat(ws), sep) == Join(ws, sep)
  {
    if |ws| == 0 {
    } else if |ws| == 1 {
      NoBoundaryUnchanged(ws[0], sep);
      assert Concat(ws) == ws[0] + Concat([]);
      assert ws[0] + [] == ws[0];
    } else {
      SeparatedWords(ws[1..], sep);
      SeparatedWordsStep(ws, sep);
    }
  }

  /** One step of `SeparatedWords`: from the words after the first to all of them. */
  lemma SeparatedWordsStep(ws: seq<string>, sep: char)
    requires |ws| > 1 && IsWordSplit(ws)
    requires Separated(Concat(ws[1..]), sep) == Join(ws[1..], sep)
    ensures Separated(Concat(ws), sep) == Join(ws, sep)
  {
    var w, rest := ws[0], ws[1..];
    ConcatHead(rest);
    assert IsBoundary(w[|w| - 1], Concat(rest)[0]);
    calc {
      Separated(Concat(ws), sep);
      Separated(w + Concat(rest), sep);
      { SeparatedConcat(w, Concat(rest), sep); }
      Separated(w, sep) + [sep] + Separated(Concat(rest), sep);
      { NoBoundaryUnchanged(w, sep); }
      w + [sep] + Join(rest, sep);
      { Regroup(w, [sep], Join(rest, sep)); }
      w + ([sep] + Join(rest, sep));
      Join(ws, sep);
    }
  }

  /** Converting every word to lower case. */
  function LowerWords(ws: seq<string>): (r: seq<string>)
    ensures |r| == |ws| && forall i :: 0 <= i < |ws| ==> r[i] == Lower(ws[i])
  {
    seq(|ws|, i requires 0 <= i < |ws| => Lower(ws[i]))
  }

  function UpperWords(ws: seq<string>): (r: seq<string>)
    ensures |r| == |ws| && forall i :: 0 <= i < |ws| ==> r[i] == Upper(ws[i])
  {
    seq(|ws|, i requires 0 <= i < |ws| => Upper(ws[i]))
  }

  /** Case folding a joined name folds each word and keeps a separator that is not a letter. */
  lemma {:induction false} LowerJoin(ws: seq<string>, sep: char)
    requires !IsUpper(sep)
    ensures Lower(Join(ws, sep)) == Join(LowerWords(ws), sep)
  {
    if |ws| == 0 {
    } else if |ws| == 1 {
    } else {
      LowerJoin(ws[1..], sep);
      FoldConcat(ws[0], [sep] + Join(ws[1..], sep));
      FoldConcat([sep], Join(ws[1..], sep));
      assert LowerWords(ws)[1..] == LowerWords(ws[1..]);
    }
  }

  lemma {:induction false} UpperJoin(ws: seq<string>, sep: char)
    requires !IsLower(sep)
    ensures Upper(Join(ws, sep)) == Join(UpperWords(ws), sep)
  {
    if |ws| == 0 {
    } else if |ws| == 1 {
    } else {
      UpperJoin(ws[1..], sep);
      FoldConcat(ws[0], [sep] + Join(ws[1..], sep));
      FoldConcat([sep], Join(ws[1..], sep));
      assert UpperWords(ws)[1..] == UpperWords(ws[1..]);
    }
  }

  /** Case folding a concatenation of words folds each word. */
  lemma {:induction false} FoldConcatWords(ws: seq<string>)
    ensures Lower(Concat(ws)) == Concat(LowerWords(ws))
    ensures Upper(Concat(ws)) == Concat(UpperWords(ws))
  {
    if |ws| > 0 {
      FoldConcatWords(ws[1..]);
      FoldConcat(ws[0], Concat(ws[1..]));
      assert LowerWords(ws)[1..] == LowerWords(ws[1..]);
      assert UpperWords(ws)[1..] == UpperWords(ws[1..]);
    }
  }
}

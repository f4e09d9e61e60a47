/**
 * The converters of the `field` package on the names their unit tests use. A camel-case test
 * name is written as the list of its words, so that each expected output is the words folded
 * and joined by the separator.
 */
module FieldConverterExamples {
  import opened Wrappers
  import opened Ascii
  import opened Patterns
  import opened Words
  import opened FieldConverters

  /** On a name made of words, each converter splits exactly between the words. */
  lemma WordConversions(ws: seq<string>)
    requires IsWordSplit(ws)
    ensures Snake(Concat(ws)) == Join(LowerWords(ws), '_')
    ensures Kebab(Concat(ws)) == Join(LowerWords(ws), '-')
    ensures ScreamingSnake(Concat(ws)) == Join(UpperWords(ws), '_')
    ensures Lowercase(Concat(ws)) == Concat(LowerWords(ws))
    ensures Uppercase(Concat(ws)) == Concat(UpperWords(ws))
  {
    SeparatedWords(ws, '_');
    SeparatedWords(ws, '-');
    LowerJoin(ws, '_');
    LowerJoin(ws, '-');
    UpperJoin(ws, '_');
    FoldConcatWords(ws);
  }

  /** A name with neither upper-case letters nor digits: only screaming snake and pascal change it. */
  lemma CaselessName(name: string)
    requires forall i :: 0 <= i < |name| ==> !IsUpper(name[i]) && !IsDigit(name[i])
    ensures Snake(name) == name && Kebab(name) == name && Lowercase(name) == name && Dromedary(name) == name
    ensures ScreamingSnake(name) == Upper(name) && Uppercase(name) == Upper(name)
  {
    CaselessHasNoBoundary(name);
    NoBoundaryUnchanged(name, '_');
    NoBoundaryUnchanged(name, '-');
    FoldKeepsFolded(name);
  }

  /** An all-upper-case name gets no separator: the lower-case strategies only fold it. */
  lemma UpperCaseName(name: string)
    requires |name| > 0 && forall i :: 0 <= i < |name| ==> IsUpper(name[i])
    ensures Snake(name) == Lower(name) && Kebab(name) == Lower(name) && Lowercase(name) == Lower(name)
    ensures ScreamingSnake(name) == name && Uppercase(name) == name && Dromedary(name) == name
    ensures Pascal(name) == Success(name)
  {
    AllUpperHasNoBoundary(name);
    NoBoundaryUnchanged(name, '_');
    NoBoundaryUnchanged(name, '-');
    FoldKeepsFolded(name);
    var v := Pascal(name).value;
    assert v == [v[0]] + v[1..] && name == [name[0]] + name[1..];
  }

  /** Pascal case leaves a name alone when its first character is not a lower-case letter. */
  lemma PascalKeepsCapitalOrDigit(name: string)
    requires |name| > 0 && !IsLower(name[0])
    ensures Pascal(name) == Success(name)
  {
    var v := Pascal(name).value;
    assert v == [v[0]] + v[1..] && name == [name[0]] + name[1..];
  }

  /** The words of the test names have no boundary inside them. */
  lemma WordsWithoutBoundary()
    ensures BoundaryCount("a") == 0 && BoundaryCount("2a") == 0 && BoundaryCount("9") == 0
    ensures BoundaryCount("String") == 0 && BoundaryCount("With") == 0
    ensures BoundaryCount("Some") == 0 && BoundaryCount("Number") == 0
  {
  }

  /** "aString9WithSomeNumber" read as words. */
  lemma DigitInMiddleSplit()
    ensures IsWordSplit(["a", "String", "9", "With", "Some", "Number"])
  {
    WordsWithoutBoundary();
  }

  lemma DigitInMiddleLower()
    ensures LowerWords(["a", "String", "9", "With", "Some", "Number"]) == ["a", "string", "9", "with", "some", "number"]
  {
    var l := LowerWords(["a", "String", "9", "With", "Some", "Number"]);
    assert l[0] == "a";
    assert l[1] == "string";
    assert l[2] == "9";
    assert l[3] == "with";
    assert l[4] == "some";
    assert l[5] == "number";
  }

  lemma DigitInMiddleUpper()
    ensures UpperWords(["a", "String", "9", "With", "Some", "Number"]) == ["A", "STRING", "9", "WITH", "SOME", "NUMBER"]
  {
    var u := UpperWords(["a", "String", "9", "With", "Some", "Number"]);
    assert u[0] == "A";
    assert u[1] == "STRING";
    assert u[2] == "9";
    assert u[3] == "WITH";
    assert u[4] == "SOME";
    assert u[5] == "NUMBER";
  }

  /** "aString9WithSomeNumber" in every separating and folding strategy. */
  lemma DigitInMiddle()
    ensures Snake(Concat(["a", "String", "9", "With", "Some", "Number"])) == Join(["a", "string", "9", "with", "some", "number"], '_')
    ensures Kebab(Concat(["a", "String", "9", "With", "Some", "Number"])) == Join(["a", "string", "9", "with", "some", "number"], '-')
    ensures ScreamingSnake(Concat(["a", "String", "9", "With", "Some", "Number"])) == Join(["A", "STRING", "9", "WITH", "SOME", "NUMBER"], '_')
    ensures Lowercase(Concat(["a", "String", "9", "With", "Some", "Number"])) == Concat(["a", "string", "9", "with", "some", "number"])
    ensures Uppercase(Concat(["a", "String", "9", "With", "Some", "Number"])) == Concat(["A", "STRING", "9", "WITH", "SOME", "NUMBER"])
  {
    DigitInMiddleSplit();
    DigitInMiddleLower();
    DigitInMiddleUpper();
    WordConversions(["a", "String", "9", "With", "Some", "Number"]);
  }

  /** "aStringWithSomeNumber9" read as words. */
  lemma DigitAtEndSplit()
    ensures IsWordSplit(["a", "String", "With", "Some", "Number", "9"])
  {
    WordsWithoutBoundary();
  }

  lemma DigitAtEndLower()
    ensures LowerWords(["a", "String", "With", "Some", "Number", "9"]) == ["a", "string", "with", "some", "number", "9"]
  {
    var l := LowerWords(["a", "String", "With", "Some", "Number", "9"]);
    assert l[0] == "a";
    assert l[1] == "string";
    assert l[2] == "with";
    assert l[3] == "some";
    assert l[4] == "number";
    assert l[5] == "9";
  }

  lemma DigitAtEndUpper()
    ensures UpperWords(["a", "String", "With", "Some", "Number", "9"]) == ["A", "STRING", "WITH", "SOME", "NUMBER", "9"]
  {
    var u := UpperWords(["a", "String", "With", "Some", "Number", "9"]);
    assert u[0] == "A";
    assert u[1] == "STRING";
    assert u[2] == "WITH";
    assert u[3] == "SOME";
    assert u[4] == "NUMBER";
    assert u[5] == "9";
  }

  /** "aStringWithSomeNumber9" in every separating and folding strategy. */
  lemma DigitAtEnd()
    ensures Snake(Concat(["a", "String", "With", "Some", "Number", "9"])) == Join(["a", "string", "with", "some", "number", "9"], '_')
    ensures Kebab(Concat(["a", "String", "With", "Some", "Number", "9"])) == Join(["a", "string", "with", "some", "number", "9"], '-')
    ensures ScreamingSnake(Concat(["a", "String", "With", "Some", "Number", "9"])) == Join(["A", "STRING", "WITH", "SOME", "NUMBER", "9"], '_')
    ensures Lowercase(Concat(["a", "String", "With", "Some", "Number", "9"])) == Concat(["a", "string", "with", "some", "number", "9"])
    ensures Uppercase(Concat(["a", "String", "With", "Some", "Number", "9"])) == Concat(["A", "STRING", "WITH", "SOME", "NUMBER", "9"])
  {
    DigitAtEndSplit();
    DigitAtEndLower();
    DigitAtEndUpper();
    WordConversions(["a", "String", "With", "Some", "Number", "9"]);
  }

  /** "2aStringWithSomeNumber" read as words. */
  lemma DigitAtStartSplit()
    ensures IsWordSplit(["2a", "String", "With", "Some", "Number"])
  {
    WordsWithoutBoundary();
  }

  lemma DigitAtStartLower()
    ensures LowerWords(["2a", "String", "With", "Some", "Number"]) == ["2a", "string", "with", "some", "number"]
  {
    var l := LowerWords(["2a", "String", "With", "Some", "Number"]);
    assert l[0] == "2a";
    assert l[1] == "string";
    assert l[2] == "with";
    assert l[3] == "some";
    assert l[4] == "number";
  }

  lemma DigitAtStartUpper()
    ensures UpperWords(["2a", "String", "With", "Some", "Number"]) == ["2A", "STRING", "WITH", "SOME", "NUMBER"]
  {
    var u := UpperWords(["2a", "String", "With", "Some", "Number"]);
    assert u[0] == "2A";
    assert u[1] == "STRING";
    assert u[2] == "WITH";
    assert u[3] == "SOME";
    assert u[4] == "NUMBER";
  }

  /** "2aStringWithSomeNumber" in every separating and folding strategy. */
  lemma DigitAtStart()
    ensures Snake(Concat(["2a", "String", "With", "Some", "Number"])) == Join(["2a", "string", "with", "some", "number"], '_')
    ensures Kebab(Concat(["2a", "String", "With", "Some", "Number"])) == Join(["2a", "string", "with", "some", "number"], '-')
    ensures ScreamingSnake(Concat(["2a", "String", "With", "Some", "Number"])) == Join(["2A", "STRING", "WITH", "SOME", "NUMBER"], '_')
    ensures Lowercase(Concat(["2a", "String", "With", "Some", "Number"])) == Concat(["2a", "string", "with", "some", "number"])
    ensures Uppercase(Concat(["2a", "String", "With", "Some", "Number"])) == Concat(["2A", "STRING", "WITH", "SOME", "NUMBER"])
  {
    DigitAtStartSplit();
    DigitAtStartLower();
    DigitAtStartUpper();
    WordConversions(["2a", "String", "With", "Some", "Number"]);
  }
}

/** The first step of creating a sketch (`MetadataFormView`): pick the book
    and chapter, type the verse and the centre word, choose the text colour.
    The form may move on to the drawing editor only when it is valid. */
module MetadataForm {
  import opened Wrappers
  import opened Seqs
  import opened Text
  import opened Records
  import opened Bible
  import DrawingEditor

  /** The form's bindings; `chapters` is what the chapter picker offers. */
  datatype Form = Form(book: string, chapter: int, verse: string, word: string, textColor: string,
                       chapters: seq<int>)

  /** `isValid`. */
  predicate IsValid(f: Form) {
    |f.book| > 0 && |f.word| > 0 && ParseInt(f.verse).Some? && Validate(f.book, f.chapter)
  }

  /** Validity read against the table: the book is one of the 66, the chapter
      lies within it, a word is given and the verse is an integer, of any value. */
  lemma IsValidMeans(f: Form)
    ensures IsValid(f) <==>
      (exists i :: 0 <= i < |Books| && Books[i].name == f.book && 1 <= f.chapter <= Books[i].chapterCount) &&
      |f.word| > 0 && ParseInt(f.verse).Some?
  {
    if IsValid(f) {
      var b := FindBook(f.book).value;
      var i :| 0 <= i < |Books| && Books[i] == b;
      assert Books[i].name == f.book && 1 <= f.chapter <= Books[i].chapterCount;
    }
    if exists i :: 0 <= i < |Books| && Books[i].name == f.book && 1 <= f.chapter <= Books[i].chapterCount {
      var i :| 0 <= i < |Books| && Books[i].name == f.book && 1 <= f.chapter <= Books[i].chapterCount;
      ValidateKnown(i, f.chapter);
    }
  }

  /** The verse handed to the editor: the typed number, or 1 when it does not parse. */
  function EditorVerse(f: Form): (v: int)
    ensures ParseInt(f.verse).Some? ==> v == ParseInt(f.verse).value
    ensures ParseInt(f.verse).None? ==> v == 1
  {
    ParseInt(f.verse).GetOr(1)
  }

  /** The editor's inputs (`DrawingEditorView(book:chapter:verse:word:textColor:)`). */
  function EditorInputs(f: Form): DrawingEditor.Sketch {
    DrawingEditor.Sketch(f.book, f.chapter, EditorVerse(f), f.word, f.textColor)
  }

  /** `updateBookAndChapters(index:)`. */
  function UpdateBookAndChapters(f: Form, index: int): (g: Form)
    requires 0 <= index < |Books|
    ensures g.book == Books[index].name && g.chapter == 1
    ensures Books[index].chapterCount >= 1 && g.chapters == OneThrough(Books[index].chapterCount)
    ensures g.verse == f.verse && g.word == f.word && g.textColor == f.textColor
  {
    BooksShape();
    f.(book := Books[index].name, chapters := OneThrough(Books[index].chapterCount), chapter := 1)
  }

  /** Once a book has been picked, the form is valid exactly when a word is
      given and the verse parses. */
  lemma PickedFormValidity(f: Form, index: int)
    requires 0 <= index < |Books|
    ensures IsValid(UpdateBookAndChapters(f, index)) <==> |f.word| > 0 && ParseInt(f.verse).Some?
  {
    BooksShape();
    ValidateKnown(index, 1);
    assert Books[index] == BookAt(index);
  }

  function Genesis1(verse: string): Form {
    Form("Genesis", 1, verse, "Light", "black", [1])
  }

  lemma Genesis1Valid(verse: string)
    ensures IsValid(Genesis1(verse)) <==> ParseInt(verse).Some?
  {
    assert Books[0] == BookAt(0);
    ValidateKnown(0, 1);
  }

  /** The verse has no range check: "0" and "-3" pass, "abc" and "" do not. */
  lemma VerseIsOnlyParsed()
    ensures IsValid(Genesis1("0")) && IsValid(Genesis1("-3"))
    ensures !IsValid(Genesis1("abc")) && !IsValid(Genesis1(""))
  {
    Genesis1Valid("0");
    Genesis1Valid("-3");
    Genesis1Valid("abc");
    Genesis1Valid("");
    assert "0" == IntToString(0);
    ParseIntToString(0);
    assert "-3" == IntToString(-3) by {
      assert NatToString(3) == "3";
    }
    ParseIntToString(-3);
  }

  /** As written, "40000" is a valid verse, and the editor's `Int16(verse)`
      cannot hold it: the save's precondition fails for a form `isValid` accepts. */
  lemma ValidVerseOverflowsInt16()
    ensures IsValid(Genesis1("40000"))
    ensures !IsInt16(EditorVerse(Genesis1("40000")))
  {
    Genesis1Valid("40000");
    Render40000();
    ParseIntToString(40000);
  }

  lemma Render40000()
    ensures IntToString(40000) == "40000"
  {
    assert NatToString(4) == "4";
    assert NatToString(40) == "40";
    assert NatToString(400) == "400";
    assert NatToString(4000) == "4000";
  }

  /** `isValid` with the range check the editor evidently relies on. */
  predicate IsValidChecked(f: Form) {
    IsValid(f) && IsInt16(ParseInt(f.verse).value)
  }

  /** A form that passes the checked validity can always be saved: the
      chapter and the verse handed to the editor fit in 16 bits. */
  lemma CheckedFormFitsEditor(f: Form)
    requires IsValidChecked(f)
    ensures IsInt16(EditorInputs(f).chapter) && IsInt16(EditorInputs(f).verse)
    ensures EditorInputs(f).verse == ParseInt(f.verse).value
  {
    IsValidMeans(f);
    BooksShape();
  }
}

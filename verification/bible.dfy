/** The canonical table of the 66 books of the Bible, with the canonical
    order used for sorting (1-66) and each book's number of chapters, and the
    chapter validation the creation forms use. */
module Bible {
  import opened Wrappers

  datatype Book = Book(id: int, name: string, chapterCount: int)

  /** The position of a listed name, read off its length and its first, third
      and last characters, which already tell the 66 names apart. */
  function NameIndex(name: string): int
    requires |name| >= 3
  {
    IndexBySignature(|name|, name[0], name[2], name[|name| - 1])
  }

  /** The table position of the name with this length and these characters, or -1. */
  function IndexBySignature(len: int, first: char, third: char, last: char): int {
    if len == 3 then
      if first == 'J' && third == 'b' && last == 'b' then 17
      else -1
    else if len == 4 then
      if first == 'R' && third == 't' && last == 'h' then 7
      else if first == 'E' && third == 'r' && last == 'a' then 14
      else if first == 'J' && third == 'e' && last == 'l' then 28
      else if first == 'A' && third == 'o' && last == 's' then 29
      else if first == 'M' && third == 'r' && last == 'k' then 40
      else if first == 'L' && third == 'k' && last == 'e' then 41
      else if first == 'J' && third == 'h' && last == 'n' then 42
      else if first == 'A' && third == 't' && last == 's' then 43
      else if first == 'J' && third == 'd' && last == 'e' then 64
      else -1
    else if len == 5 then
      if first == 'H' && third == 's' && last == 'a' then 27
      else if first == 'J' && third == 'n' && last == 'h' then 31
      else if first == 'M' && third == 'c' && last == 'h' then 32
      else if first == 'N' && third == 'h' && last == 'm' then 33
      else if first == 'T' && third == 't' && last == 's' then 55
      else if first == 'J' && third == 'm' && last == 's' then 58
      else -1
    else if len == 6 then
      if first == 'E' && third == 'o' && last == 's' then 1
      else if first == 'J' && third == 's' && last == 'a' then 5
      else if first == 'J' && third == 'd' && last == 's' then 6
      else if first == 'E' && third == 't' && last == 'r' then 16
      else if first == 'P' && third == 'a' && last == 's' then 18
      else if first == 'I' && third == 'a' && last == 'h' then 22
      else if first == 'D' && third == 'n' && last == 'l' then 26
      else if first == 'H' && third == 'g' && last == 'i' then 36
      else if first == 'R' && third == 'm' && last == 's' then 44
      else if first == '1' && third == 'J' && last == 'n' then 61
      else if first == '2' && third == 'J' && last == 'n' then 62
      else if first == '3' && third == 'J' && last == 'n' then 63
      else -1
    else if len == 7 then
      if first == 'G' && third == 'n' && last == 's' then 0
      else if first == 'N' && third == 'm' && last == 's' then 3
      else if first == '1' && third == 'K' && last == 's' then 10
      else if first == '2' && third == 'K' && last == 's' then 11
      else if first == 'E' && third == 'e' && last == 'l' then 25
      else if first == 'O' && third == 'a' && last == 'h' then 30
      else if first == 'M' && third == 'l' && last == 'i' then 38
      else if first == 'M' && third == 't' && last == 'w' then 39
      else if first == 'H' && third == 'b' && last == 's' then 57
      else if first == '1' && third == 'P' && last == 'r' then 59
      else if first == '2' && third == 'P' && last == 'r' then 60
      else -1
    else if len == 8 then
      if first == '1' && third == 'S' && last == 'l' then 8
      else if first == '2' && third == 'S' && last == 'l' then 9
      else if first == 'N' && third == 'h' && last == 'h' then 15
      else if first == 'P' && third == 'o' && last == 's' then 19
      else if first == 'J' && third == 'r' && last == 'h' then 23
      else if first == 'H' && third == 'b' && last == 'k' then 34
      else if first == 'P' && third == 'i' && last == 'n' then 56
      else -1
    else if len == 9 then
      if first == 'L' && third == 'v' && last == 's' then 2
      else if first == 'Z' && third == 'p' && last == 'h' then 35
      else if first == 'Z' && third == 'c' && last == 'h' then 37
      else if first == 'G' && third == 'l' && last == 's' then 47
      else if first == 'E' && third == 'h' && last == 's' then 48
      else if first == '1' && third == 'T' && last == 'y' then 53
      else if first == '2' && third == 'T' && last == 'y' then 54
      else -1
    else if len == 10 then
      if first == 'C' && third == 'l' && last == 's' then 50
      else if first == 'R' && third == 'v' && last == 'n' then 65
      else -1
    else if len == 11 then
      if first == 'D' && third == 'u' && last == 'y' then 4
      else if first == 'P' && third == 'i' && last == 's' then 49
      else -1
    else if len == 12 then
      if first == '1' && third == 'C' && last == 's' then 12
      else if first == '2' && third == 'C' && last == 's' then 13
      else if first == 'E' && third == 'c' && last == 's' then 20
      else if first == 'L' && third == 'm' && last == 's' then 24
      else -1
    else if len == 13 then
      if first == '1' && third == 'C' && last == 's' then 45
      else if first == '2' && third == 'C' && last == 's' then 46
      else -1
    else if len == 15 then
      if first == 'S' && third == 'n' && last == 'n' then 21
      else if first == '1' && third == 'T' && last == 's' then 51
      else if first == '2' && third == 'T' && last == 's' then 52
      else -1
    else -1
  }

  /** The `i`-th entry (0-based) of the table. */
  function BookAt(i: int): (b: Book)
    requires 0 <= i < 66
    ensures b.id == i + 1 && 1 <= b.chapterCount <= 150
    ensures |b.name| >= 3 && NameIndex(b.name) == i
  {
    if i < 5 then GenesisToDeuteronomy(i)
    else if i < 12 then JoshuaToKings(i)
    else if i < 17 then ChroniclesToEsther(i)
    else if i < 22 then JobToSongOfSolomon(i)
    else if i < 27 then IsaiahToDaniel(i)
    else if i < 33 then HoseaToMicah(i)
    else if i < 39 then NahumToMalachi(i)
    else if i < 44 then MatthewToActs(i)
    else if i < 48 then RomansToGalatians(i)
    else if i < 53 then EphesiansToThessalonians(i)
    else if i < 57 then TimothyToPhilemon(i)
    else if i < 61 then HebrewsToPeter(i)
    else JohnToRevelation(i)
  }

  /** The law. */
  function GenesisToDeuteronomy(i: int): (b: Book)
    requires 0 <= i < 5
    ensures b.id == i + 1 && 1 <= b.chapterCount <= 150
    ensures |b.name| >= 3 && NameIndex(b.name) == i
  {
    if i == 0 then Book(1, "Genesis", 50)
    else if i == 1 then Book(2, "Exodus", 40)
    else if i == 2 then Book(3, "Leviticus", 27)
    else if i == 3 then Book(4, "Numbers", 36)
    else Book(5, "Deuteronomy", 34)
  }

  /** The history from the conquest to the exile. */
  function JoshuaToKings(i: int): (b: Book)
    requires 5 <= i < 12
    ensures b.id == i + 1 && 1 <= b.chapterCount <= 150
    ensures |b.name| >= 3 && NameIndex(b.name) == i
  {
    if i == 5 then Book(6, "Joshua", 24)
    else if i == 6 then Book(7, "Judges", 21)
    else if i == 7 then Book(8, "Ruth", 4)
    else if i == 8 then Book(9, "1 Samuel", 31)
    else if i == 9 then Book(10, "2 Samuel", 24)
    else if i == 10 then Book(11, "1 Kings", 22)
    else Book(12, "2 Kings", 25)
  }

  /** The history retold and the return. */
  function ChroniclesToEsther(i: int): (b: Book)
    requires 12 <= i < 17
    ensures b.id == i + 1 && 1 <= b.chapterCount <= 150
    ensures |b.name| >= 3 && NameIndex(b.name) == i
  {
    if i == 12 then Book(13, "1 Chronicles", 29)
    else if i == 13 then Book(14, "2 Chronicles", 36)
    else if i == 14 then Book(15, "Ezra", 10)
    else if i == 15 then Book(16, "Nehemiah", 13)
    else Book(17, "Esther", 10)
  }

  /** Poetry and wisdom. */
  function JobToSongOfSolomon(i: int): (b: Book)
    requires 17 <= i < 22
    ensures b.id == i + 1 && 1 <= b.chapterCount <= 150
    ensures |b.name| >= 3 && NameIndex(b.name) == i
  {
    if i == 17 then Book(18, "Job", 42)
    else if i == 18 then Book(19, "Psalms", 150)
    else if i == 19 then Book(20, "Proverbs", 31)
    else if i == 20 then Book(21, "Ecclesiastes", 12)
    else Book(22, "Song of Solomon", 8)
  }

  /** The major prophets. */
  function IsaiahToDaniel(i: int): (b: Book)
    requires 22 <= i < 27
    ensures b.id == i + 1 && 1 <= b.chapterCount <= 150
    ensures |b.name| >= 3 && NameIndex(b.name) == i
  {
    if i == 22 then Book(23, "Isaiah", 66)
    else if i == 23 then Book(24, "Jeremiah", 52)
    else if i == 24 then Book(25, "Lamentations", 5)
    else if i == 25 then Book(26, "Ezekiel", 48)
    else Book(27, "Daniel", 12)
  }

  /** The first six minor prophets. */
  function HoseaToMicah(i: int): (b: Book)
    requires 27 <= i < 33
    ensures b.id == i + 1 && 1 <= b.chapterCount <= 150
    ensures |b.name| >= 3 && NameIndex(b.name) == i
  {
    if i == 27 then Book(28, "Hosea", 14)
    else if i == 28 then Book(29, "Joel", 3)
    else if i == 29 then Book(30, "Amos", 9)
    else if i == 30 then Book(31, "Obadiah", 1)
    else if i == 31 then Book(32, "Jonah", 4)
    else Book(33, "Micah", 7)
  }

  /** The last six minor prophets. */
  function NahumToMalachi(i: int): (b: Book)
    requires 33 <= i < 39
    ensures b.id == i + 1 && 1 <= b.chapterCount <= 150
    ensures |b.name| >= 3 && NameIndex(b.name) == i
  {
    if i == 33 then Book(34, "Nahum", 3)
    else if i == 34 then Book(35, "Habakkuk", 3)
    else if i == 35 then Book(36, "Zephaniah", 3)
    else if i == 36 then Book(37, "Haggai", 2)
    else if i == 37 then Book(38, "Zechariah", 14)
    else Book(39, "Malachi", 4)
  }

  /** The gospels and Acts. */
  function MatthewToActs(i: int): (b: Book)
    requires 39 <= i < 44
    ensures b.id == i + 1 && 1 <= b.chapterCount <= 150
    ensures |b.name| >= 3 && NameIndex(b.name) == i
  {
    if i == 39 then Book(40, "Matthew", 28)
    else if i == 40 then Book(41, "Mark", 16)
    else if i == 41 then Book(42, "Luke", 24)
    else if i == 42 then Book(43, "John", 21)
    else Book(44, "Acts", 28)
  }

  /** Paul's first four letters. */
  function RomansToGalatians(i: int): (b: Book)
    requires 44 <= i < 48
    ensures b.id == i + 1 && 1 <= b.chapterCount <= 150
    ensures |b.name| >= 3 && NameIndex(b.name) == i
  {
    if i == 44 then Book(45, "Romans", 16)
    else if i == 45 then Book(46, "1 Corinthians", 16)
    else if i == 46 then Book(47, "2 Corinthians", 13)
    else Book(48, "Galatians", 6)
  }

  /** Paul's letters from Ephesians to 2 Thessalonians. */
  function EphesiansToThessalonians(i: int): (b: Book)
    requires 48 <= i < 53
    ensures b.id == i + 1 && 1 <= b.chapterCount <= 150
    ensures |b.name| >= 3 && NameIndex(b.name) == i
  {
    if i == 48 then Book(49, "Ephesians", 6)
    else if i == 49 then Book(50, "Philippians", 4)
    else if i == 50 then Book(51, "Colossians", 4)
    else if i == 51 then Book(52, "1 Thessalonians", 5)
    else Book(53, "2 Thessalonians", 3)
  }

  /** Paul's letters to individuals. */
  function TimothyToPhilemon(i: int): (b: Book)
    requires 53 <= i < 57
    ensures b.id == i + 1 && 1 <= b.chapterCount <= 150
    ensures |b.name| >= 3 && NameIndex(b.name) == i
  {
    if i == 53 then Book(54, "1 Timothy", 6)
    else if i == 54 then Book(55, "2 Timothy", 4)
    else if i == 55 then Book(56, "Titus", 3)
    else Book(57, "Philemon", 1)
  }

  /** Hebrews, James and Peter's letters. */
  function HebrewsToPeter(i: int): (b: Book)
    requires 57 <= i < 61
    ensures b.id == i + 1 && 1 <= b.chapterCount <= 150
    ensures |b.name| >= 3 && NameIndex(b.name) == i
  {
    if i == 57 then Book(58, "Hebrews", 13)
    else if i == 58 then Book(59, "James", 5)
    else if i == 59 then Book(60, "1 Peter", 5)
    else Book(61, "2 Peter", 3)
  }

  /** John's letters, Jude and Revelation. */
  function JohnToRevelation(i: int): (b: Book)
    requires 61 <= i < 66
    ensures b.id == i + 1 && 1 <= b.chapterCount <= 150
    ensures |b.name| >= 3 && NameIndex(b.name) == i
  {
    if i == 61 then Book(62, "1 John", 5)
    else if i == 62 then Book(63, "2 John", 1)
    else if i == 63 then Book(64, "3 John", 1)
    else if i == 64 then Book(65, "Jude", 1)
    else Book(66, "Revelation", 22)
  }

  /** `BibleDataStore.shared.books`, in list order. */
  const Books: seq<Book> := BuildBooks()

  /** The table as a sequence, entry `i` being `BookAt(i)`. */
  function BuildBooks(): (bs: seq<Book>)
    ensures |bs| == 66 && forall i :: 0 <= i < 66 ==> bs[i] == BookAt(i)
  {
    seq(66, i requires 0 <= i < 66 => BookAt(i))
  }

  /** The table lists 66 books numbered 1..66 in list order, each with at least
      one chapter. */
  lemma BooksShape()
    ensures |Books| == 66
    ensures forall i :: 0 <= i < |Books| ==> Books[i].id == i + 1 && 1 <= Books[i].chapterCount <= 150
  {
  }

  /** No two books share a name. */
  lemma BookNamesDistinct()
    ensures forall i, j :: 0 <= i < j < |Books| ==> Books[i].name != Books[j].name
  {
    forall i, j | 0 <= i < j < |Books| ensures Books[i].name != Books[j].name {
      assert NameIndex(Books[i].name) == i && NameIndex(Books[j].name) == j;
    }
  }

  /** The first book of `bs` called `name`. */
  function FirstNamed(bs: seq<Book>, name: string): (r: Option<Book>)
    ensures r.Some? ==> r.value in bs && r.value.name == name
    ensures r.None? ==> forall j :: 0 <= j < |bs| ==> bs[j].name != name
  {
    if |bs| == 0 then None
    else if bs[0].name == name then Some(bs[0])
    else FirstNamed(bs[1..], name)
  }

  /** `books.first(where: { $0.name == name })`. */
  function FindBook(name: string): Option<Book> {
    FirstNamed(Books, name)
  }

  /** Looking up a listed book's own name finds that very entry. */
  lemma FindBookAt(i: int)
    requires 0 <= i < |Books|
    ensures FindBook(Books[i].name) == Some(Books[i])
  {
    BookNamesDistinct();
    var r := FindBook(Books[i].name);
    assert r.Some?;
    var j :| 0 <= j < |Books| && Books[j] == r.value;
    assert Books[j].name == Books[i].name;
  }

  /** Lookup fails exactly for names that are not in the table. */
  lemma FindBookMissing(name: string)
    ensures FindBook(name).None? <==> forall i :: 0 <= i < |Books| ==> Books[i].name != name
  {
    if FindBook(name).Some? {
      var b := FindBook(name).value;
      var j :| 0 <= j < |Books| && Books[j] == b;
    }
  }

  /** `validate(book:chapter:)`: the book is in the table and the chapter lies
      within its chapter count. */
  predicate Validate(book: string, chapter: int) {
    match FindBook(book)
    case None => false
    case Some(b) => 1 <= chapter && chapter <= b.chapterCount
  }

  /** A name that is not in the table never validates. */
  lemma ValidateUnknown(book: string, chapter: int)
    requires forall i :: 0 <= i < |Books| ==> Books[i].name != book
    ensures !Validate(book, chapter)
  {
    FindBookMissing(book);
  }

  /** For a listed book, a chapter validates exactly when it is between 1 and
      the book's chapter count. */
  lemma ValidateKnown(i: int, chapter: int)
    requires 0 <= i < |Books|
    ensures Validate(Books[i].name, chapter) <==> 1 <= chapter <= Books[i].chapterCount
  {
    FindBookAt(i);
  }

  /** The last chapter of Psalms is valid and the next one is not. */
  lemma ValidatePsalmsBoundary()
    ensures Validate("Psalms", 150)
    ensures !Validate("Psalms", 151)
    ensures !Validate("Psalms", 0)
  {
    assert Books[18] == BookAt(18) && BookAt(18).name == "Psalms";
    ValidateKnown(18, 150);
    ValidateKnown(18, 151);
    ValidateKnown(18, 0);
  }

  /** Jude has a single chapter. */
  lemma ValidateJudeBoundary()
    ensures Validate("Jude", 1)
    ensures !Validate("Jude", 2)
  {
    assert Books[64] == BookAt(64) && BookAt(64).name == "Jude";
    ValidateKnown(64, 1);
    ValidateKnown(64, 2);
  }

  /** Names must match exactly: "Psalm" is not a book. */
  lemma ValidateMisspelt()
    ensures !Validate("Psalm", 1)
  {
    forall i | 0 <= i < |Books| ensures Books[i].name != "Psalm" {
      assert Books[i] == BookAt(i);
    }
    ValidateUnknown("Psalm", 1);
  }

  /** The canonical order of a listed book (its `id`), if the name is listed. */
  function OrderOf(name: string): (r: Option<int>)
    ensures r.Some? <==> FindBook(name).Some?
    ensures r.Some? ==> r.value == FindBook(name).value.id
  {
    match FindBook(name)
    case None => None
    case Some(b) => Some(b.id)
  }

  /** The order stored for a listed book is its 1-based position in the table. */
  lemma OrderOfAt(i: int)
    requires 0 <= i < |Books|
    ensures OrderOf(Books[i].name) == Some(i + 1)
  {
    BooksShape();
    FindBookAt(i);
  }
}

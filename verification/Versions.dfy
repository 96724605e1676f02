/** Comparing and sorting version strings (packvault/ui/packages.py). */
module Versions {
  import opened Decimal
  import opened Segments
  import opened Strings
  import opened Text

  datatype Part = Num(value: nat) | Word(text: string)

  /** Both `-` and `_` separate parts like a dot. */
  function Dotted(s: string): string {
    if s == "" then "" else [if s[0] == '-' || s[0] == '_' then '.' else s[0]] + Dotted(s[1..])
  }

  function PartOf(s: string): Part {
    if IsDigits(s) then Num(Value(s)) else Word(Lower(s))
  }

  function PartsOf(pieces: seq<string>): seq<Part> {
    if pieces == [] then []
    else
      var last := pieces[|pieces| - 1];
      PartsOf(pieces[..|pieces| - 1]) + if last == "" then [] else [PartOf(last)]
  }

  /** The pieces between separators, empty ones left out, as parts. */
  function Pieces(version: string): seq<Part> {
    PartsOf(Split(Dotted(version), '.'))
  }

  /** A version without any part is itself its only part. */
  function VersionParts(version: string): (parts: seq<Part>)
    ensures parts != []
  {
    if Pieces(version) == [] then [Word(version)] else Pieces(version)
  }

  predicate Separator(c: char) {
    c == '.' || c == '-' || c == '_'
  }

  lemma {:induction false} DottedConcat(a: string, b: string)
    ensures Dotted(a + b) == Dotted(a) + Dotted(b)
  {
    if a == "" {
      assert a + b == b;
    } else {
      assert (a + b)[1..] == a[1..] + b;
      DottedConcat(a[1..], b);
    }
  }

  lemma {:induction false} PartsConcat(a: seq<string>, b: seq<string>)
    ensures PartsOf(a + b) == PartsOf(a) + PartsOf(b)
  {
    if b == [] {
      assert a + b == a;
    } else {
      assert (a + b)[..|a + b| - 1] == a + b[..|b| - 1];
      PartsConcat(a, b[..|b| - 1]);
    }
  }

  lemma PiecesSeparated(a: string, c: char, b: string)
    requires Separator(c)
    ensures Pieces(a + [c] + b) == Pieces(a) + Pieces(b)
  {
    DottedConcat(a + [c], b);
    DottedConcat(a, [c]);
    assert Dotted([c]) == ".";
    SplitConcat(Dotted(a), Dotted(b), '.');
    PartsConcat(Split(Dotted(a), '.'), Split(Dotted(b), '.'));
  }

  /** Any of the three separators separates the parts before it from those behind it. */
  lemma SeparatedParts(a: string, c: char, b: string)
    requires Separator(c) && Pieces(a) != [] && Pieces(b) != []
    ensures VersionParts(a + [c] + b) == VersionParts(a) + VersionParts(b)
  {
    PiecesSeparated(a, c, b);
  }

  method CollectParts(version: string) returns (parts: seq<Part>)
    ensures parts == VersionParts(version)
  {
    var pieces := Split(Dotted(version), '.');
    parts := [];
    var i := 0;
    while i < |pieces|
      invariant 0 <= i <= |pieces| && parts == PartsOf(pieces[..i])
    {
      assert pieces[..i + 1][..i] == pieces[..i];
      if pieces[i] != "" { parts := parts + [PartOf(pieces[i])]; }
      i := i + 1;
    }
    assert pieces[..|pieces|] == pieces;
    if parts == [] { parts := [Word(version)]; }
  }

  function PartText(p: Part): string {
    match p
    case Num(value) => Str(value)
    case Word(text) => text
  }

  function Sign(less: bool): int {
    if less then -1 else 1
  }

  function CompareParts(a: Part, b: Part): int {
    if a == b then 0
    else if a.Num? && b.Num? then Sign(a.value < b.value)
    else if PartText(a) == PartText(b) then 0
    else Sign(Less(PartText(a), PartText(b)))
  }

  function CompareLists(a: seq<Part>, b: seq<Part>): int {
    if a == [] || b == [] then if |a| == |b| then 0 else Sign(|a| < |b|)
    else
      var c := CompareParts(a[0], b[0]);
      if c != 0 then c else CompareLists(a[1..], b[1..])
  }

  function CompareVersions(a: string, b: string): int {
    CompareLists(VersionParts(a), VersionParts(b))
  }

  // ---------------------------------------------------------------------------------------------
  // For all versions: antisymmetric, and zero exactly for equal parts.

  lemma PartsAntisymmetric(a: Part, b: Part)
    ensures CompareParts(a, b) == -CompareParts(b, a)
  {
    var x, y := PartText(a), PartText(b);
    LessTotal(x, y);
    if Less(x, y) { LessAsymmetric(x, y); }
    if Less(y, x) { LessAsymmetric(y, x); }
  }

  lemma {:induction false} ListsAntisymmetric(a: seq<Part>, b: seq<Part>)
    ensures CompareLists(a, b) == -CompareLists(b, a)
  {
    if a != [] && b != [] {
      PartsAntisymmetric(a[0], b[0]);
      ListsAntisymmetric(a[1..], b[1..]);
    }
  }

  lemma CompareAntisymmetric(a: string, b: string)
    ensures CompareVersions(a, b) == -CompareVersions(b, a)
  {
    ListsAntisymmetric(VersionParts(a), VersionParts(b));
  }

  /** No word is a numeral. */
  predicate Proper(p: Part) {
    p.Word? ==> !IsDigits(p.text)
  }

  predicate AllProper(parts: seq<Part>) {
    forall i :: 0 <= i < |parts| ==> Proper(parts[i])
  }

  lemma {:induction false} LowerDigits(s: string)
    ensures |Lower(s)| == |s| && forall i :: 0 <= i < |s| ==> (Digit(Lower(s)[i]) <==> Digit(s[i]))
  {
    if s != "" {
      LowerDigits(s[1..]);
      forall i | 0 < i < |s| ensures Digit(Lower(s)[i]) <==> Digit(s[i]) {
        assert Lower(s)[i] == Lower(s[1..])[i - 1];
      }
    }
  }

  lemma {:induction false} PartsProper(pieces: seq<string>)
    ensures AllProper(PartsOf(pieces))
  {
    if pieces != [] {
      PartsProper(pieces[..|pieces| - 1]);
      LowerDigits(pieces[|pieces| - 1]);
    }
  }

  lemma {:induction false} DottedDigits(s: string)
    requires IsDigits(s)
    ensures Dotted(s) == s && '.' !in s
  {
    assert Digit(s[0]);
    if |s| > 1 {
      forall i | 0 <= i < |s[1..]| ensures Digit(s[1..][i]) { assert s[1..][i] == s[i + 1]; }
      DottedDigits(s[1..]);
    }
    assert s == [s[0]] + s[1..];
  }

  /** The parts of one piece. */
  lemma OnePiece(s: string)
    requires s != "" && Dotted(s) == s && '.' !in s
    ensures Pieces(s) == VersionParts(s) == [PartOf(s)]
  {
    SplitWhole(s, '.');
    assert [s][..0] == [];
    assert PartsOf([s]) == PartsOf([]) + [PartOf(s)];
  }

  lemma VersionProper(version: string)
    ensures AllProper(VersionParts(version))
  {
    PartsProper(Split(Dotted(version), '.'));
    if IsDigits(version) {
      DottedDigits(version);
      OnePiece(version);
    }
  }

  lemma PartsZero(a: Part, b: Part)
    requires Proper(a) && Proper(b)
    ensures CompareParts(a, b) == 0 <==> a == b
  {
  }

  lemma {:induction false} ListsZero(a: seq<Part>, b: seq<Part>)
    requires AllProper(a) && AllProper(b)
    ensures CompareLists(a, b) == 0 <==> a == b
  {
    if a != [] && b != [] {
      PartsZero(a[0], b[0]);
      ListsZero(a[1..], b[1..]);
      assert a == [a[0]] + a[1..] && b == [b[0]] + b[1..];
    }
  }

  lemma CompareZeroIff(a: string, b: string)
    ensures CompareVersions(a, b) == 0 <==> VersionParts(a) == VersionParts(b)
  {
    VersionProper(a);
    VersionProper(b);
    ListsZero(VersionParts(a), VersionParts(b));
  }

  // ---------------------------------------------------------------------------------------------
  // The order itself, by the first part that differs.

  /** Two numbers compare by value, everything else by its text. */
  ghost predicate PartBelow(a: Part, b: Part) {
    if a.Num? && b.Num? then a.value < b.value else exists i: nat :: SmallerAt(PartText(a), PartText(b), i)
  }

  /** The parts agree up to position `i`, where the first list has ended or has the smaller part. */
  ghost predicate BelowAt(a: seq<Part>, b: seq<Part>, i: nat) {
    i <= |a| && i < |b| && (forall k :: 0 <= k < i ==> a[k] == b[k]) && (i == |a| || PartBelow(a[i], b[i]))
  }

  lemma PartBelowIff(a: Part, b: Part)
    ensures Proper(a) && Proper(b) ==> (CompareParts(a, b) < 0 <==> PartBelow(a, b))
  {
    LessIff(PartText(a), PartText(b));
    LessIrreflexive(PartText(a));
  }

  lemma {:induction false} ListsBelow(a: seq<Part>, b: seq<Part>) returns (i: nat)
    requires AllProper(a) && AllProper(b) && CompareLists(a, b) < 0
    ensures BelowAt(a, b, i)
  {
    i := 0;
    if a != [] && b != [] {
      PartBelowIff(a[0], b[0]);
      PartsZero(a[0], b[0]);
      if a[0] == b[0] {
        var n := ListsBelow(a[1..], b[1..]);
        i := n + 1;
        forall k | 0 <= k < i ensures a[k] == b[k] {
          if k > 0 { assert a[1..][k - 1] == b[1..][k - 1]; }
        }
      }
    }
  }

  lemma {:induction false} BelowCompares(a: seq<Part>, b: seq<Part>, i: nat)
    requires AllProper(a) && AllProper(b) && BelowAt(a, b, i)
    ensures CompareLists(a, b) < 0
  {
    if i > 0 {
      BelowCompares(a[1..], b[1..], i - 1);
    } else if a != [] {
      PartBelowIff(a[0], b[0]);
    }
  }

  /**
    The order on versions: the first part that differs decides, two numbers by value and everything else by text,
    and a version whose parts are the first parts of another comes before it.
  */
  lemma CompareByFirstDifference(a: string, b: string)
    ensures CompareVersions(a, b) < 0 <==> exists i: nat :: BelowAt(VersionParts(a), VersionParts(b), i)
  {
    VersionProper(a);
    VersionProper(b);
    if CompareVersions(a, b) < 0 { var i := ListsBelow(VersionParts(a), VersionParts(b)); }
    if i: nat :| BelowAt(VersionParts(a), VersionParts(b), i) { BelowCompares(VersionParts(a), VersionParts(b), i); }
  }

  /** A version comes before itself with more parts behind any separator: 1 before 1.1, and 1.0 before 1.0-rc. */
  lemma ExtensionIsLater(a: string, c: char, b: string)
    requires Separator(c) && Pieces(a) != [] && Pieces(b) != []
    ensures CompareVersions(a, a + [c] + b) < 0
  {
    SeparatedParts(a, c, b);
    CompareByFirstDifference(a, a + [c] + b);
    assert BelowAt(VersionParts(a), VersionParts(a + [c] + b), |VersionParts(a)|);
  }

  // ---------------------------------------------------------------------------------------------
  // What the parts of a version are.

  lemma {:induction false} DottedPlain(s: string)
    requires forall i :: 0 <= i < |s| ==> !Separator(s[i])
    ensures Dotted(s) == s && '.' !in s
  {
    if s != "" {
      DottedPlain(s[1..]);
      assert s == [s[0]] + s[1..];
    }
  }

  predicate Digits(s: string) {
    forall i :: 0 <= i < |s| ==> '0' <= s[i] <= '9'
  }

  /** A piece without separators is one part: a number if it has only digits, else its word in lower case. */
  lemma PlainPiece(s: string, word: string)
    requires s != "" && forall i :: 0 <= i < |s| ==> s[i] != '.' && s[i] != '-' && s[i] != '_'
    requires ReadsAs(s, word) && NoUpper(word)
    ensures Pieces(s) == [if Digits(s) then Num(Value(s)) else Word(word)]
  {
    assert Pieces(s) == [PartOf(s)] by {
      DottedPlain(s);
      OnePiece(s);
    }
    PartMeaning(s, word);
  }

  lemma PartMeaning(s: string, word: string)
    requires s != "" && ReadsAs(s, word) && NoUpper(word)
    ensures PartOf(s) == if Digits(s) then Num(Value(s)) else Word(word)
  {
    LowerIs(s, word);
    assert IsDigits(s) <==> Digits(s) by {
      if Digits(s) { forall i | 0 <= i < |s| ensures Digit(s[i]) {} }
      if IsDigits(s) { forall i | 0 <= i < |s| ensures '0' <= s[i] <= '9' { assert Digit(s[i]); } }
    }
  }

  /**
    The parts of any version: a separator puts those before it in front of those behind it, and there is none in
    between; a version without any piece is its own only part, as it is.
  */
  lemma PartsMeaning(a: string, c: char, b: string)
    requires c == '.' || c == '-' || c == '_'
    ensures Pieces("") == [] && Pieces(a + [c] + b) == Pieces(a) + Pieces(b)
    ensures VersionParts(a) == if Pieces(a) == [] then [Word(a)] else Pieces(a)
  {
    PiecesSeparated(a, c, b);
    assert [""][..0] == [];
  }

  predicate NoUpper(s: string) {
    forall i :: 0 <= i < |s| ==> !('A' <= s[i] <= 'Z')
  }

  // ---------------------------------------------------------------------------------------------
  // When the order is transitive.

  /** All nines, and then a letter (or anything else above the digits). */
  predicate NinesThenLetter(s: string) {
    s != "" && (s[0] > '9' || (s[0] == '9' && NinesThenLetter(s[1..])))
  }

  /** A word that begins with a number other than 0, 9, 99, 999, ... */
  predicate CycleProne(s: string) {
    s != "" && '1' <= s[0] && !NinesThenLetter(s)
  }

  /** A larger number sorts before the word, and a smaller one behind it. */
  ghost predicate Sandwiched(s: string) {
    exists i: nat, j: nat :: i < j && Less(Str(j), s) && Less(s, Str(i))
  }

  lemma {:induction false} AllBelow(digits: string, s: string)
    requires NinesThenLetter(s) && forall i :: 0 <= i < |digits| ==> Digit(digits[i])
    ensures Less(digits, s)
  {
    if digits != "" && s[0] == '9' && digits[0] == '9' { AllBelow(digits[1..], s[1..]); }
  }

  lemma NoNumberBelow(s: string, n: nat)
    requires n > 0 && (s == "" || s[0] <= '0')
    ensures !Less(Str(n), s)
  {
    LeadingDigit(n);
    assert Digit(Str(n)[0]);
  }

  /** A word that is not prone leaves the numbers below it closed downwards. */
  lemma NumbersBelow(s: string, i: nat, j: nat)
    requires !CycleProne(s) && i < j && Less(Str(j), s)
    ensures Less(Str(i), s)
  {
    if s != "" && '1' <= s[0] {
      AllBelow(Str(i), s);
    } else {
      NoNumberBelow(s, j);
    }
  }

  predicate Tame(p: Part) {
    Proper(p) && (p.Word? ==> !CycleProne(p.text))
  }

  predicate AllTame(parts: seq<Part>) {
    forall i :: 0 <= i < |parts| ==> Tame(parts[i])
  }

  lemma NumberNumberWord(i: nat, j: nat, s: string)
    requires Tame(Word(s)) && i < j && CompareParts(Num(j), Word(s)) < 0
    ensures CompareParts(Num(i), Word(s)) < 0
  {
    NumbersBelow(s, i, j);
  }

  lemma WordNumberNumber(s: string, i: nat, j: nat)
    requires Tame(Word(s)) && i < j && CompareParts(Word(s), Num(i)) < 0
    ensures CompareParts(Word(s), Num(j)) < 0
  {
    LessTotal(s, Str(j));
    if Less(Str(j), s) {
      NumbersBelow(s, i, j);
      LessAsymmetric(s, Str(i));
    }
  }

  lemma NumberWordNumber(i: nat, s: string, j: nat)
    requires Tame(Word(s)) && CompareParts(Num(i), Word(s)) < 0 && CompareParts(Word(s), Num(j)) < 0
    ensures i < j
  {
    LessAsymmetric(Str(i), s);
    if j < i {
      NumbersBelow(s, j, i);
      LessAsymmetric(s, Str(j));
    }
  }

  lemma PartsTransitive(a: Part, b: Part, c: Part)
    requires Tame(a) && Tame(b) && Tame(c) && CompareParts(a, b) < 0 && CompareParts(b, c) < 0
    ensures CompareParts(a, c) < 0
  {
    match (a, b, c) {
      case (Num(_), Num(_), Num(_)) =>
      case (Num(i), Num(j), Word(s)) => NumberNumberWord(i, j, s);
      case (Word(s), Num(i), Num(j)) => WordNumberNumber(s, i, j);
      case (Num(i), Word(s), Num(j)) => NumberWordNumber(i, s, j);
      case _ =>
        LessTransitive(PartText(a), PartText(b), PartText(c));
        LessAsymmetric(PartText(a), PartText(c));
    }
  }

  lemma {:induction false} ListsTransitive(a: seq<Part>, b: seq<Part>, c: seq<Part>)
    requires AllTame(a) && AllTame(b) && AllTame(c) && CompareLists(a, b) <= 0 && CompareLists(b, c) <= 0
    ensures CompareLists(a, c) <= 0
  {
    if a != [] && b != [] && c != [] {
      PartsZero(a[0], b[0]);
      PartsZero(b[0], c[0]);
      if a[0] != b[0] && b[0] != c[0] {
        PartsTransitive(a[0], b[0], c[0]);
      } else if a[0] == c[0] {
        ListsTransitive(a[1..], b[1..], c[1..]);
      }
    }
  }

  predicate TameVersion(version: string) {
    AllTame(VersionParts(version))
  }

  /** On tame versions the comparison is a total preorder: with antisymmetry, it is transitive. */
  lemma CompareTransitive(a: string, b: string, c: string)
    requires TameVersion(a) && TameVersion(b) && TameVersion(c)
    requires CompareVersions(a, b) <= 0 && CompareVersions(b, c) <= 0
    ensures CompareVersions(a, c) <= 0
    ensures CompareVersions(a, c) == 0 ==> CompareVersions(a, b) == 0 && CompareVersions(b, c) == 0
  {
    ListsTransitive(VersionParts(a), VersionParts(b), VersionParts(c));
    if CompareVersions(a, c) == 0 {
      CompareZeroIff(a, c);
      CompareAntisymmetric(a, b);
    }
  }

  /** Versions whose parts are numbers or begin with a letter are tame. */
  lemma LetterFirstIsTame(version: string)
    requires var parts := VersionParts(version);
      forall i :: 0 <= i < |parts| ==> parts[i].Num? || (parts[i].text != "" && parts[i].text[0] > '9')
    ensures TameVersion(version)
  {
    VersionProper(version);
  }

  // ---------------------------------------------------------------------------------------------
  // Every prone word breaks the order.

  /** A word as it comes out of a validated path: digits and lower-case letters, and not a number. */
  predicate PlainWord(s: string) {
    !IsDigits(s) && s != "" && forall i :: 0 <= i < |s| ==> Digit(s[i]) || 'a' <= s[i] <= 'z'
  }

  lemma {:induction false} FirstLetter(s: string) returns (d: nat)
    requires exists i :: 0 <= i < |s| && !Digit(s[i])
    ensures d < |s| && !Digit(s[d]) && forall i :: 0 <= i < d ==> Digit(s[i])
  {
    if Digit(s[0]) {
      var i :| 0 <= i < |s| && !Digit(s[i]);
      assert !Digit(s[1..][i - 1]);
      d := FirstLetter(s[1..]);
      d := d + 1;
    } else {
      d := 0;
    }
  }

  lemma {:induction false} FirstLowDigit(s: string) returns (k: nat)
    requires !NinesThenLetter(s) && exists i :: 0 <= i < |s| && !Digit(s[i])
    requires forall i :: 0 <= i < |s| ==> Digit(s[i]) || s[i] > '9'
    ensures k < |s| && '0' <= s[k] < '9' && forall i :: 0 <= i < k ==> s[i] == '9'
  {
    if s[0] == '9' {
      var i :| 0 <= i < |s| && !Digit(s[i]);
      assert !Digit(s[1..][i - 1]);
      k := FirstLowDigit(s[1..]);
      k := k + 1;
    } else {
      k := 0;
    }
  }

  /** The smaller number: the leading digits up to the first that is not nine, which is raised by one. */
  lemma NumberAbove(s: string, k: nat) returns (numeral: string)
    requires k < |s| && '1' <= s[0] && '0' <= s[k] < '9' && forall i :: 0 <= i < k ==> s[i] == '9'
    ensures IsDigits(numeral) && numeral[0] != '0' && |numeral| == k + 1 && Less(s, numeral)
  {
    var next := (s[k] as int + 1) as char;
    numeral := s[..k] + [next];
    assert s == s[..k] + s[k..];
    LessCommonPrefix(s[..k], s[k..], [next]);
  }

  /** The larger number: all leading digits and a zero. */
  lemma NumberBefore(s: string, d: nat) returns (numeral: string)
    requires 0 < d < |s| && s[d] > '9' && '1' <= s[0] && forall i :: 0 <= i < d ==> Digit(s[i])
    ensures IsDigits(numeral) && numeral[0] != '0' && |numeral| == d + 1 && Less(numeral, s)
  {
    numeral := s[..d] + "0";
    assert s == s[..d] + s[d..];
    LessCommonPrefix(s[..d], "0", s[d..]);
  }

  /** A prone word has a larger number before it and a smaller one behind it. */
  lemma ProneIsSandwiched(s: string) returns (i: nat, j: nat)
    requires PlainWord(s) && CycleProne(s)
    ensures i < j && Less(Str(j), s) && Less(s, Str(i))
  {
    var d := FirstLetter(s);
    var k := FirstLowDigit(s);
    var low := NumberAbove(s, k);
    var high := NumberBefore(s, d);
    LongerIsLarger(low, high);
    StrOfValue(low);
    StrOfValue(high);
    i, j := Value(low), Value(high);
  }

  /** Exactly the prone words stand between a larger and a smaller number. */
  lemma SandwichedIff(s: string)
    requires PlainWord(s)
    ensures Sandwiched(s) <==> CycleProne(s)
  {
    if CycleProne(s) { var i, j := ProneIsSandwiched(s); }
    if !CycleProne(s) && Sandwiched(s) {
      var i: nat, j: nat :| i < j && Less(Str(j), s) && Less(s, Str(i));
      NumbersBelow(s, i, j);
      LessAsymmetric(s, Str(i));
    }
  }

  lemma NumberVersion(n: nat)
    ensures VersionParts(Str(n)) == [Num(n)]
  {
    DottedDigits(Str(n));
    OnePiece(Str(n));
    ValueOfStr(n);
  }

  lemma {:induction false} PlainStays(s: string)
    requires forall i :: 0 <= i < |s| ==> Digit(s[i]) || 'a' <= s[i] <= 'z'
    ensures Dotted(s) == s && Lower(s) == s && '.' !in s
  {
    if s != "" {
      PlainStays(s[1..]);
      assert s == [s[0]] + s[1..];
    }
  }

  lemma WordVersion(s: string)
    requires PlainWord(s)
    ensures VersionParts(s) == [Word(s)]
  {
    PlainStays(s);
    OnePiece(s);
  }

  lemma SingleParts(a: Part, b: Part)
    ensures CompareLists([a], [b]) == CompareParts(a, b)
  {
  }

  /** The cycle of a prone word, as versions: a number, a larger number, the word, and the first number again. */
  lemma ProneMakesCycle(s: string) returns (i: nat, j: nat)
    requires PlainWord(s) && CycleProne(s)
    ensures CompareVersions(Str(i), Str(j)) < 0 && CompareVersions(Str(j), s) < 0 && CompareVersions(s, Str(i)) < 0
  {
    i, j := ProneIsSandwiched(s);
    NumberVersion(i);
    NumberVersion(j);
    WordVersion(s);
    SingleParts(Num(i), Num(j));
    SingleParts(Num(j), Word(s));
    SingleParts(Word(s), Num(i));
  }

  predicate MadeOf(version: string, words: set<string>) {
    forall i :: 0 <= i < |VersionParts(version)| ==>
      VersionParts(version)[i].Num? || VersionParts(version)[i].text in words
  }

  predicate InOrder(a: string, b: string) {
    CompareVersions(a, b) <= 0
  }

  /** The comparison is transitive on all versions made of numbers and some words. */
  ghost predicate TransitiveOn(words: set<string>) {
    forall a, b, c :: MadeOf(a, words) && MadeOf(b, words) && MadeOf(c, words) ==>
      InOrder(a, b) && InOrder(b, c) ==> InOrder(a, c)
  }

  /** The only part of a version without pieces. */
  predicate OnlySeparators(s: string) {
    forall i :: 0 <= i < |s| ==> Separator(s[i])
  }

  /** What can be a word of a version that is a segment of a validated path. */
  predicate VersionWord(s: string) {
    PlainWord(s) || OnlySeparators(s)
  }

  lemma SeparatorsNotProne(s: string)
    requires OnlySeparators(s)
    ensures !CycleProne(s)
  {
    if s != "" { assert Separator(s[0]); }
  }

  /** Exactly when the comparison is transitive: none of the words is prone. */
  lemma TransitiveIff(words: set<string>)
    requires forall s :: s in words ==> VersionWord(s)
    ensures TransitiveOn(words) <==> forall s :: s in words ==> !CycleProne(s)
  {
    if forall s :: s in words ==> !CycleProne(s) {
      TameWords(words);
    } else {
      var s :| s in words && CycleProne(s);
      if OnlySeparators(s) { SeparatorsNotProne(s); }
      ProneBreaksOrder(s, words);
    }
  }

  lemma MadeOfTame(version: string, words: set<string>)
    requires MadeOf(version, words) && forall s :: s in words ==> !CycleProne(s)
    ensures TameVersion(version)
  {
    VersionProper(version);
  }

  lemma TameWords(words: set<string>)
    requires forall s :: s in words ==> !CycleProne(s)
    ensures TransitiveOn(words)
  {
    forall a, b, c | MadeOf(a, words) && MadeOf(b, words) && MadeOf(c, words) && InOrder(a, b) && InOrder(b, c)
      ensures InOrder(a, c)
    {
      MadeOfTame(a, words);
      MadeOfTame(b, words);
      MadeOfTame(c, words);
      CompareTransitive(a, b, c);
    }
  }

  lemma ProneBreaksOrder(s: string, words: set<string>)
    requires s in words && PlainWord(s) && CycleProne(s)
    ensures !TransitiveOn(words)
  {
    var i, j := ProneMakesCycle(s);
    NumberVersion(i);
    NumberVersion(j);
    WordVersion(s);
    CompareAntisymmetric(s, Str(i));
    assert InOrder(Str(i), Str(j)) && InOrder(Str(j), s) && !InOrder(Str(i), s);
  }

  /** The smallest example: 9, 10 and 1a. */
  lemma NineTenOneA()
    ensures CompareVersions("9", "10") < 0 && CompareVersions("10", "1a") < 0 && CompareVersions("1a", "9") < 0
  {
    assert Str(9) == "9" && Str(10) == Str(1) + "0";
    NumberVersion(9);
    NumberVersion(10);
    assert PlainWord("1a") by { assert !Digit("1a"[1]); }
    WordVersion("1a");
    SingleParts(Num(9), Num(10));
    SingleParts(Num(10), Word("1a"));
    SingleParts(Word("1a"), Num(9));
    assert Less("10"[1..], "1a"[1..]);
  }
}

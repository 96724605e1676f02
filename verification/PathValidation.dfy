/**
  Validating artifact paths and building storage keys from them (packvault/security/path_validation.py
  and packvault/maven/paths.py), and the paths of the browse view (packvault/ui/artifacts.py).
*/
module PathValidation {
  import opened Basics
  import opened Text
  import opened FileTree
  import opened Segments

  const MAX_LENGTH: nat := 2048

  datatype PathError = Empty | TooLong | Invalid | Disallowed | BadRepository | UnknownRepository | NotInRepository

  predicate Alphanumeric(c: char) {
    'A' <= c <= 'Z' || 'a' <= c <= 'z' || '0' <= c <= '9'
  }

  predicate SegmentChar(c: char) {
    Alphanumeric(c) || c == '.' || c == '_' || c == '-'
  }

  /** What Python's `strip` takes for white space. */
  predicate Space(c: char) {
    || c == ' ' || '\t' <= c <= '\r' || '\U{1C}' <= c <= '\U{1F}' || c == '\U{85}' || c == '\U{A0}' || c == '\U{1680}'
    || '\U{2000}' <= c <= '\U{200A}' || c == '\U{2028}' || c == '\U{2029}' || c == '\U{202F}' || c == '\U{205F}'
    || c == '\U{3000}'
  }

  /** Backslash, drive letter, query, fragment, or a control character. */
  predicate Forbidden(c: char) {
    c == '\\' || c == ':' || c == '?' || c == '#' || c < ' ' || c == '\U{7F}'
  }

  predicate Blank(s: string) {
    forall i :: 0 <= i < |s| ==> Space(s[i])
  }

  function HexDigit(c: char): Option<nat> {
    if '0' <= c <= '9' then Some(c as int - '0' as int)
    else if 'a' <= c <= 'f' then Some(c as int - 'a' as int + 10)
    else if 'A' <= c <= 'F' then Some(c as int - 'A' as int + 10)
    else None
  }

  /**
    Percent-decoding. A byte above 127 becomes the replacement character: what it really decodes to
    is not ASCII either, and no character beyond ASCII passes the checks below.
  */
  function Unquote(s: string): string {
    if s == "" then ""
    else if |s| >= 3 && s[0] == '%' && HexDigit(s[1]).Some? && HexDigit(s[2]).Some? then
      var value := 16 * HexDigit(s[1]).value + HexDigit(s[2]).value;
      [if value < 128 then value as char else '\U{FFFD}'] + Unquote(s[3..])
    else [s[0]] + Unquote(s[1..])
  }

  predicate HasDots(s: string) {
    exists i :: 0 < i < |s| && s[i] == '.' && s[i - 1] == '.'
  }

  predicate GoodSegment(s: string) {
    s != "" && s != "." && s != ".." && !HasDots(s) && forall i :: 0 <= i < |s| ==> SegmentChar(s[i])
  }

  function CheckSegments(normalized: string): Result<string, PathError> {
    if normalized == "" then Err(Empty)
    else if exists i :: 0 <= i < |normalized| && !SegmentChar(normalized[i]) && normalized[i] != '/'
    then Err(Disallowed)
    else if exists i :: 0 <= i < |Split(normalized, '/')| && !GoodSegment(Split(normalized, '/')[i]) then Err(Invalid)
    else Ok(normalized)
  }

  function CheckDecoded(decoded: string): Result<string, PathError> {
    if |decoded| > MAX_LENGTH then Err(TooLong)
    else if decoded != "" && (Space(decoded[0]) || Space(decoded[|decoded| - 1])) then Err(Invalid)
    else if decoded != "" && decoded[0] == '/' then Err(Invalid)
    else if exists i :: 0 <= i < |decoded| && Forbidden(decoded[i]) then Err(Invalid)
    else CheckSegments(StripSlashes(decoded))
  }

  function ValidateMavenPath(path: string): Result<string, PathError> {
    if Blank(path) then Err(Empty)
    else if |path| > MAX_LENGTH then Err(TooLong)
    else CheckDecoded(Unquote(path))
  }

  /** The paths that validation lets through, described on their own. */
  predicate Canonical(path: string) {
    |path| <= MAX_LENGTH && forall i :: 0 <= i < |Split(path, '/')| ==> GoodSegment(Split(path, '/')[i])
  }

  predicate PlainChars(s: string) {
    forall i :: 0 <= i < |s| ==> SegmentChar(s[i]) || s[i] == '/'
  }

  lemma {:induction false} JoinedChars(parts: seq<string>)
    requires forall i :: 0 <= i < |parts| ==> GoodSegment(parts[i])
    ensures PlainChars(Join(parts, '/'))
  {
    if |parts| > 1 { JoinedChars(parts[1..]); }
  }

  lemma CanonicalChars(path: string)
    requires Canonical(path)
    ensures PlainChars(path) && Clean(path)
  {
    JoinSplit(path, '/');
    JoinedChars(Split(path, '/'));
    CleanSegments(path);
  }

  lemma {:induction false} UnquotePlain(s: string)
    requires PlainChars(s)
    ensures Unquote(s) == s
  {
    if s != "" {
      UnquotePlain(s[1..]);
      assert s == [s[0]] + s[1..];
    }
  }

  lemma {:induction false} UnquoteShortens(s: string)
    ensures |Unquote(s)| <= |s|
  {
    if s == "" {
    } else if |s| >= 3 && s[0] == '%' && HexDigit(s[1]).Some? && HexDigit(s[2]).Some? {
      UnquoteShortens(s[3..]);
    } else {
      UnquoteShortens(s[1..]);
    }
  }

  /**
    Exactly what is accepted, and what comes out: a path is accepted when its percent-decoding,
    without slashes at the end, is canonical, and that is the result.
  */
  lemma ValidateIff(path: string, result: string)
    ensures ValidateMavenPath(path) == Ok(result) <==>
            |path| <= MAX_LENGTH && Canonical(result) && StripRight(Unquote(path)) == result
  {
    UnquoteShortens(path);
    var decoded := Unquote(path);
    StripRightPrefix(decoded);
    if |path| <= MAX_LENGTH && Canonical(result) && StripRight(decoded) == result {
      CanonicalChars(result);
      AcceptsDecoded(path, result);
    }
  }

  lemma {:induction false} BlankUnquotes(path: string)
    requires Blank(path)
    ensures Unquote(path) == path
  {
    if path != "" {
      assert Space(path[0]);
      BlankUnquotes(path[1..]);
      assert path == [path[0]] + path[1..];
    }
  }

  lemma PlainChar(c: char)
    requires SegmentChar(c) || c == '/'
    ensures !Space(c) && !Forbidden(c)
  {
  }

  /** A canonical path followed by slashes passes every check on the decoded text. */
  lemma PlainDecoded(decoded: string, result: string)
    requires StripRight(decoded) == result && PlainChars(result) && Clean(result)
    ensures decoded != "" && decoded[0] != '/' && StripSlashes(decoded) == result && !Blank(decoded)
    ensures forall i :: 0 <= i < |decoded| ==> !Space(decoded[i]) && !Forbidden(decoded[i])
  {
    StripRightPrefix(decoded);
    assert decoded[0] == result[0];
    forall i | 0 <= i < |decoded| ensures !Space(decoded[i]) && !Forbidden(decoded[i]) {
      if i < |result| { assert decoded[i] == result[i]; }
      PlainChar(decoded[i]);
    }
    assert StripLeft(decoded) == decoded;
  }

  lemma AcceptsDecoded(path: string, result: string)
    requires |path| <= MAX_LENGTH && StripRight(Unquote(path)) == result
    requires Canonical(result) && PlainChars(result) && Clean(result)
    ensures ValidateMavenPath(path) == Ok(result)
  {
    UnquoteShortens(path);
    PlainDecoded(Unquote(path), result);
    if Blank(path) { BlankUnquotes(path); }
    SegmentsPass(result);
  }

  lemma SegmentsPass(path: string)
    requires Canonical(path) && PlainChars(path) && path != ""
    ensures CheckSegments(path) == Ok(path)
  {
  }

  /** What comes out is a fixed point: canonical, and accepted as it is. */
  lemma ValidateIdempotent(path: string)
    requires ValidateMavenPath(path).Ok?
    ensures Canonical(ValidateMavenPath(path).value)
    ensures ValidateMavenPath(ValidateMavenPath(path).value) == ValidateMavenPath(path)
  {
    var r := ValidateMavenPath(path).value;
    ValidateIff(path, r);
    CanonicalAccepted(r);
  }

  lemma CanonicalAccepted(path: string)
    requires Canonical(path)
    ensures ValidateMavenPath(path) == Ok(path)
  {
    CanonicalChars(path);
    UnquotePlain(path);
    StripRightClean(path);
    ValidateIff(path, path);
  }

  // ---------------------------------------------------------------------------------------------
  // Acceptance, character by character.

  predicate DoubleDotAt(s: string, i: nat) {
    0 < i < |s| && s[i - 1] == '.' && s[i] == '.'
  }

  /** A segment that is a dot. */
  predicate LoneDotAt(s: string, i: nat) {
    i < |s| && s[i] == '.' && (i == 0 || s[i - 1] == '/') && (i + 1 == |s| || s[i + 1] == '/')
  }

  predicate DoubleSlashAt(s: string, i: nat) {
    0 < i < |s| && s[i - 1] == '/' && s[i] == '/'
  }

  /** Letters, digits, dots, underscores, hyphens, and slashes between them. */
  ghost predicate PlainPath(path: string) {
    && 1 <= |path| <= 2048 && path[0] != '/' && path[|path| - 1] != '/'
    && (forall i :: 0 <= i < |path| ==>
          || 'A' <= path[i] <= 'Z' || 'a' <= path[i] <= 'z' || '0' <= path[i] <= '9'
          || path[i] == '.' || path[i] == '_' || path[i] == '-' || path[i] == '/')
    && forall i: nat :: !DoubleSlashAt(path, i) && !DoubleDotAt(path, i) && !LoneDotAt(path, i)
  }

  ghost predicate NoDots(s: string) {
    forall i: nat :: !DoubleDotAt(s, i) && !LoneDotAt(s, i)
  }

  predicate NoDotSegment(s: string) {
    s != "." && !HasDots(s)
  }

  lemma DotsOfOne(a: string)
    requires '/' !in a
    ensures NoDots(a) <==> NoDotSegment(a)
  {
    assert forall k :: 0 <= k < |a| ==> a[k] != '/';
    forall i: nat | LoneDotAt(a, i) ensures a == "." {}
    if a == "." { assert LoneDotAt(a, 0); }
    if HasDots(a) {
      var i :| 0 < i < |a| && a[i] == '.' && a[i - 1] == '.';
      assert DoubleDotAt(a, i);
    }
  }

  lemma DotsOfJoined(a: string, b: string, s: string)
    requires '/' !in a && b != "" && s == a + ['/'] + b
    ensures NoDots(s) <==> NoDotSegment(a) && NoDots(b)
  {
    var n := |a| + 1;
    forall i: nat ensures DoubleDotAt(b, i) <==> i > 0 && DoubleDotAt(s, i + n) {}
    forall i: nat ensures LoneDotAt(b, i) <==> LoneDotAt(s, i + n) {}
    forall i: nat | i < n ensures DoubleDotAt(s, i) <==> DoubleDotAt(a, i) {}
    forall i: nat | i < n ensures LoneDotAt(s, i) <==> LoneDotAt(a, i) {}
    assert !DoubleDotAt(s, n);
    DotsOfOne(a);
    if NoDots(s) {
      forall i: nat ensures !DoubleDotAt(a, i) && !LoneDotAt(a, i) { assert i < n ==> !DoubleDotAt(s, i); }
      forall i: nat ensures !DoubleDotAt(b, i) && !LoneDotAt(b, i) { assert !DoubleDotAt(s, i + n); }
    }
    if NoDots(a) && NoDots(b) {
      forall i: nat ensures !DoubleDotAt(s, i) && !LoneDotAt(s, i) {
        if i >= n { assert !DoubleDotAt(b, i - n) && !LoneDotAt(b, i - n); }
      }
    }
  }

  lemma {:induction false} DotsOfSegments(parts: seq<string>)
    requires parts != [] && forall i :: 0 <= i < |parts| ==> parts[i] != "" && '/' !in parts[i]
    ensures Join(parts, '/') != ""
    ensures NoDots(Join(parts, '/')) <==> forall i :: 0 <= i < |parts| ==> NoDotSegment(parts[i])
  {
    if |parts| == 1 {
      DotsOfOne(parts[0]);
    } else {
      DotsOfSegments(parts[1..]);
      DotsOfJoined(parts[0], Join(parts[1..], '/'), Join(parts, '/'));
      assert forall i :: 0 < i < |parts| ==> parts[i] == parts[1..][i - 1];
    }
  }

  lemma {:induction false} CharsOfSegments(parts: seq<string>)
    requires PlainChars(Join(parts, '/')) && forall i :: 0 <= i < |parts| ==> '/' !in parts[i]
    ensures forall i, k :: 0 <= i < |parts| && 0 <= k < |parts[i]| ==> SegmentChar(parts[i][k])
  {
    if parts != [] {
      var s, first := Join(parts, '/'), parts[0];
      assert first <= s;
      forall k | 0 <= k < |first| ensures SegmentChar(first[k]) { assert s[k] == first[k] && first[k] in first; }
      if |parts| > 1 {
        var rest := Join(parts[1..], '/');
        forall k | 0 <= k < |rest| ensures SegmentChar(rest[k]) || rest[k] == '/' {
          assert s[|first| + 1 + k] == rest[k];
        }
        CharsOfSegments(parts[1..]);
        assert forall i :: 0 < i < |parts| ==> parts[i] == parts[1..][i - 1];
      }
    }
  }

  lemma PlainIsClean(path: string)
    requires PlainPath(path)
    ensures Clean(path)
  {
    forall i | 0 < i < |path| && path[i] == '/' ensures path[i - 1] != '/' { assert !DoubleSlashAt(path, i); }
  }

  lemma CanonicalIsPlain(path: string)
    requires Canonical(path)
    ensures PlainPath(path)
  {
    CanonicalChars(path);
    CleanIff(path);
    SplitHasNoSeparator(path, '/');
    JoinSplit(path, '/');
    DotsOfSegments(Split(path, '/'));
    assert NoDots(path);
    forall i: nat ensures !DoubleSlashAt(path, i) && !DoubleDotAt(path, i) && !LoneDotAt(path, i) {}
    forall i | 0 <= i < |path| ensures SegmentChar(path[i]) || path[i] == '/' {}
  }

  lemma PlainIsCanonical(path: string)
    requires PlainPath(path)
    ensures Canonical(path)
  {
    var parts := Split(path, '/');
    PlainIsClean(path);
    CleanIff(path);
    SplitHasNoSeparator(path, '/');
    JoinSplit(path, '/');
    DotsOfSegments(parts);
    assert NoDots(path);
    CharsOfSegments(parts);
    assert HasDots("..") by { assert ".."[1] == '.' && ".."[0] == '.'; }
    forall i | 0 <= i < |parts| ensures GoodSegment(parts[i]) {}
  }

  lemma CanonicalIff(path: string)
    ensures Canonical(path) <==> PlainPath(path)
  {
    if Canonical(path) { CanonicalIsPlain(path); }
    if PlainPath(path) { PlainIsCanonical(path); }
  }

  /** A path is accepted as itself exactly when it is plain, character by character. */
  lemma AcceptedIff(path: string)
    ensures ValidateMavenPath(path) == Ok(path) <==> PlainPath(path)
  {
    CanonicalIff(path);
    if Canonical(path) { CanonicalAccepted(path); }
    if ValidateMavenPath(path) == Ok(path) { ValidateIdempotent(path); }
  }

  /** Whatever is accepted comes out plain. */
  lemma AcceptedIsPlain(path: string)
    requires ValidateMavenPath(path).Ok?
    ensures PlainPath(ValidateMavenPath(path).value) && |path| <= 2048
  {
    ValidateIdempotent(path);
    CanonicalIff(ValidateMavenPath(path).value);
  }

  /** The two characters are the hexadecimal digits, in either case, of a character below 128. */
  predicate HexPair(high: char, low: char, c: char) {
    exists i, j :: 0 <= i < 8 && 0 <= j < 16 && 16 * i + j == c as int && HexOf(high, i) && HexOf(low, j)
  }

  predicate HexOf(c: char, d: nat)
    requires d < 16
  {
    c == "0123456789abcdef"[d] || c == "0123456789ABCDEF"[d]
  }

  lemma HexOfDigit(c: char, d: nat)
    requires d < 16 && HexOf(c, d)
    ensures HexDigit(c) == Some(d)
  {
  }

  /** Each character stands for itself, or is a percent sign and its two digits (section 2.1 of RFC 3986). */
  predicate Encodes(encoded: string, path: string) {
    if path == "" then encoded == ""
    else
      || (encoded != "" && encoded[0] == path[0] && path[0] != '%' && Encodes(encoded[1..], path[1..]))
      || (|encoded| >= 3 && encoded[0] == '%' && HexPair(encoded[1], encoded[2], path[0])
          && Encodes(encoded[3..], path[1..]))
  }

  lemma {:induction false} EncodedDecodes(encoded: string, path: string)
    requires Encodes(encoded, path)
    ensures Unquote(encoded) == path
  {
    if path != "" {
      assert path == [path[0]] + path[1..];
      if encoded[0] == path[0] && path[0] != '%' && Encodes(encoded[1..], path[1..]) {
        EncodedDecodes(encoded[1..], path[1..]);
      } else {
        EncodedDecodes(encoded[3..], path[1..]);
        var i, j :| 0 <= i < 8 && 0 <= j < 16 && 16 * i + j == path[0] as int
                    && HexOf(encoded[1], i) && HexOf(encoded[2], j);
        HexOfDigit(encoded[1], i);
        HexOfDigit(encoded[2], j);
      }
    }
  }

  /** Every percent-encoding of a plain path that is not too long is accepted as the path. */
  lemma EveryEncodingAccepted(encoded: string, path: string)
    requires PlainPath(path) && Encodes(encoded, path) && |encoded| <= 2048
    ensures ValidateMavenPath(encoded) == Ok(path)
  {
    CanonicalIff(path);
    EncodedDecodes(encoded, path);
    EncodingIrrelevant(path, encoded);
  }

  /** Any percent-encoding of a path is validated like the path itself. */
  lemma EncodingIrrelevant(path: string, encoded: string)
    requires Canonical(path) && Unquote(encoded) == path && |encoded| <= MAX_LENGTH
    ensures ValidateMavenPath(encoded) == Ok(path)
  {
    CanonicalChars(path);
    StripRightClean(path);
    ValidateIff(encoded, path);
  }

  function HexChar(d: nat): char
    requires d < 16
  {
    "0123456789ABCDEF"[d]
  }

  /** Every character percent-encoded. */
  function Encode(s: string): string
    requires forall i :: 0 <= i < |s| ==> s[i] < '\U{80}'
  {
    if s == "" then ""
    else ['%', HexChar(s[0] as nat / 16), HexChar(s[0] as nat % 16)] + Encode(s[1..])
  }

  lemma HexRoundTrip(d: nat)
    requires d < 16
    ensures HexDigit(HexChar(d)) == Some(d)
  {
  }

  lemma UnquoteTriple(c: char, rest: string)
    requires c < '\U{80}'
    ensures Unquote(['%', HexChar(c as nat / 16), HexChar(c as nat % 16)] + rest) == [c] + Unquote(rest)
  {
    HexRoundTrip(c as nat / 16);
    HexRoundTrip(c as nat % 16);
    assert (['%', HexChar(c as nat / 16), HexChar(c as nat % 16)] + rest)[3..] == rest;
  }

  /** Decoding undoes encoding. */
  lemma {:induction false} UnquoteEncoded(s: string)
    requires forall i :: 0 <= i < |s| ==> s[i] < '\U{80}'
    ensures Unquote(Encode(s)) == s
  {
    if s != "" {
      UnquoteEncoded(s[1..]);
      UnquoteTriple(s[0], Encode(s[1..]));
      assert s == [s[0]] + s[1..];
    }
  }

  lemma {:induction false} EncodedLength(s: string)
    requires forall i :: 0 <= i < |s| ==> s[i] < '\U{80}'
    ensures |Encode(s)| == 3 * |s|
  {
    if s != "" { EncodedLength(s[1..]); }
  }

  /** A canonical path encoded in full is accepted as the path itself, unless the encoding is too long. */
  lemma EncodedAccepted(path: string)
    requires Canonical(path)
    ensures forall i :: 0 <= i < |path| ==> path[i] < '\U{80}'
    ensures ValidateMavenPath(Encode(path)) == Ok(path) <==> 3 * |path| <= MAX_LENGTH
  {
    CanonicalChars(path);
    forall i | 0 <= i < |path| ensures path[i] < '\U{80}' { PlainIsAscii(path[i]); }
    UnquoteEncoded(path);
    EncodedLength(path);
    StripRightClean(path);
    ValidateIff(Encode(path), path);
  }

  lemma PlainIsAscii(c: char)
    requires SegmentChar(c) || c == '/'
    ensures c < '\U{80}'
  {
  }

  // ---------------------------------------------------------------------------------------------
  // Storage keys.

  predicate ValidRepositoryName(name: string) {
    && 1 <= |name| <= 64 && Alphanumeric(name[0])
    && forall i :: 0 <= i < |name| ==> SegmentChar(name[i])
  }

  function ValidateRepositoryName(name: string): Result<string, PathError> {
    if ValidRepositoryName(name) then Ok(name) else Err(BadRepository)
  }

  function BuildStorageKey(repository: string, artifactPath: string): string {
    repository + "/" + artifactPath
  }

  datatype MavenRequest = MavenRequest(repository: string, artifactPath: string, storageKey: string)

  function ParseMavenRequest(repository: string, artifactPath: string, known: set<string>)
    : Result<MavenRequest, PathError>
  {
    if !ValidRepositoryName(repository) then Err(BadRepository)
    else if repository !in known then Err(UnknownRepository)
    else
      match ValidateMavenPath(artifactPath)
      case Err(e) => Err(e)
      case Ok(path) => Ok(MavenRequest(repository, path, BuildStorageKey(repository, path)))
  }

  function ArtifactPathFromKey(key: string, repository: string): Result<string, PathError> {
    if repository + "/" <= key then Ok(key[|repository| + 1..]) else Err(NotInRepository)
  }

  /** A path from below the root, followed segment by segment; `None` when it leaves the root. */
  function Resolve(parts: seq<string>, at: seq<string>): Option<seq<string>> {
    if parts == [] then Some(at)
    else if parts[0] == "" || parts[0] == "." then Resolve(parts[1..], at)
    else if parts[0] == ".." then
      if at == [] then None else Resolve(parts[1..], at[..|at| - 1])
    else Resolve(parts[1..], at + [parts[0]])
  }

  lemma {:induction false} ResolvePlain(parts: seq<string>, at: seq<string>)
    requires forall i :: 0 <= i < |parts| ==> parts[i] != "" && parts[i] != "." && parts[i] != ".."
    ensures Resolve(parts, at) == Some(at + parts)
    decreases |parts|
  {
    if parts == [] {
      assert at + parts == at;
    } else {
      ResolvePlain(parts[1..], at + [parts[0]]);
      assert at + [parts[0]] + parts[1..] == at + parts;
    }
  }

  /** Two dots go up, and one more than there are segments to leave goes out of the root. */
  lemma DotsLeave(name: string, rest: seq<string>)
    requires name != "" && name != "." && name != ".."
    ensures Resolve([name, ".."] + rest, []) == Resolve(rest, [])
    ensures Resolve([".."] + rest, []) == None
  {
    assert ([name, ".."] + rest)[1..] == [".."] + rest && ([".."] + rest)[1..] == rest;
    assert [] + [name] == [name] && [name][..0] == [];
  }

  /** The segments of a storage key are the repository and the segments of the path. */
  lemma KeySegments(repository: string, path: string)
    requires ValidRepositoryName(repository)
    ensures Split(BuildStorageKey(repository, path), '/') == [repository] + Split(path, '/')
  {
    SplitAround(repository, path, '/');
  }

  /** A storage key names a file below the root, and it resolves to its own segments. */
  lemma KeyStaysBelowRoot(repository: string, path: string)
    requires ValidRepositoryName(repository) && Canonical(path)
    ensures var key := BuildStorageKey(repository, path);
      Clean(key) && Resolve(Split(key, '/'), []) == Some(Split(key, '/')) && Ancestor(repository, key)
  {
    var key := BuildStorageKey(repository, path);
    KeySegments(repository, path);
    CleanSegments(key);
    ResolvePlain(Split(key, '/'), []);
    assert [] + Split(key, '/') == Split(key, '/');
  }

  /** Distinct requests have distinct keys, and the path comes back out of its key. */
  lemma StorageKeyInjective(r1: string, p1: string, r2: string, p2: string)
    requires ValidRepositoryName(r1) && ValidRepositoryName(r2)
    requires BuildStorageKey(r1, p1) == BuildStorageKey(r2, p2)
    ensures r1 == r2 && p1 == p2
  {
    KeySegments(r1, p1);
    KeySegments(r2, p2);
    assert ([r1] + Split(p1, '/'))[0] == ([r2] + Split(p2, '/'))[0];
    ArtifactPathRoundTrip(r1, p1);
    ArtifactPathRoundTrip(r2, p2);
  }

  lemma ArtifactPathRoundTrip(repository: string, path: string)
    ensures ArtifactPathFromKey(BuildStorageKey(repository, path), repository) == Ok(path)
  {
    assert BuildStorageKey(repository, path)[|repository| + 1..] == path;
  }

  /** One to 64 characters, the first a letter or a digit. */
  predicate PlainName(name: string) {
    && 1 <= |name| <= 64 && name[0] != '.' && name[0] != '_' && name[0] != '-'
    && forall i :: 0 <= i < |name| ==>
         || 'A' <= name[i] <= 'Z' || 'a' <= name[i] <= 'z' || '0' <= name[i] <= '9'
         || name[i] == '.' || name[i] == '_' || name[i] == '-'
  }

  lemma PlainNameIff(name: string)
    ensures PlainName(name) <==> ValidRepositoryName(name)
  {
    if PlainName(name) { assert Alphanumeric(name[0]); }
    if ValidRepositoryName(name) {
      forall i | 0 <= i < |name| ensures SegmentChar(name[i]) {}
    }
  }

  /** Exactly which requests are parsed, and to what; an unknown repository is told from a name that cannot be one. */
  lemma ParsedIff(repository: string, artifactPath: string, known: set<string>, r: MavenRequest)
    ensures ParseMavenRequest(repository, artifactPath, known) == Ok(r) <==>
            && PlainName(repository) && repository in known && ValidateMavenPath(artifactPath) == Ok(r.artifactPath)
            && r.repository == repository && r.storageKey == repository + "/" + r.artifactPath
    ensures PlainName(repository) && repository !in known ==>
              ParseMavenRequest(repository, artifactPath, known) == Err(UnknownRepository)
    ensures !PlainName(repository) ==> ParseMavenRequest(repository, artifactPath, known) == Err(BadRepository)
  {
    PlainNameIff(repository);
  }

  /** A path comes out of a key exactly when the key is the path in the repository. */
  lemma FromKeyIff(key: string, repository: string, path: string)
    ensures ArtifactPathFromKey(key, repository) == Ok(path) <==> key == repository + "/" + path
  {
    if repository + "/" <= key { assert key == repository + "/" + key[|repository| + 1..]; }
  }

  /** A parsed request is fixed by any encoding of its path, and its key is below its repository. */
  lemma ParsedRequest(repository: string, artifactPath: string, known: set<string>)
    requires ParseMavenRequest(repository, artifactPath, known).Ok?
    ensures var r := ParseMavenRequest(repository, artifactPath, known).value;
      && r.repository == repository && repository in known && Canonical(r.artifactPath)
      && Clean(r.storageKey) && Ancestor(repository, r.storageKey)
      && ArtifactPathFromKey(r.storageKey, repository) == Ok(r.artifactPath)
      && ParseMavenRequest(repository, r.artifactPath, known) == Ok(r)
  {
    var r := ParseMavenRequest(repository, artifactPath, known).value;
    ValidateIdempotent(artifactPath);
    KeyStaysBelowRoot(repository, r.artifactPath);
    ArtifactPathRoundTrip(repository, r.artifactPath);
  }
}

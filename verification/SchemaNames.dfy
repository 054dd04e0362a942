/** Names in the protocol definitions of tools/protocolgen/generate.py: the patterns they must match, the
    Go names made of them, and the order in which they are listed. */
module SchemaNames {

  predicate IsLower(c: char) { 'a' <= c <= 'z' }

  predicate IsUpper(c: char) { 'A' <= c <= 'Z' }

  predicate IsDigit(c: char) { '0' <= c <= '9' }

  /** [a-z][a-z0-9]*(?:_[a-z][a-z0-9]*)* of at most 100 characters. */
  predicate IsFieldName(s: string) {
    && 0 < |s| <= 100 && IsLower(s[0])
    && (forall i :: 0 <= i < |s| ==> IsLower(s[i]) || IsDigit(s[i]) || s[i] == '_')
    && (forall i :: 0 <= i < |s| && s[i] == '_' ==> i + 1 < |s| && IsLower(s[i + 1]))
  }

  /** [A-Z][A-Za-z0-9]* */
  predicate IsMessageName(s: string) {
    && 0 < |s| <= 100 && IsUpper(s[0])
    && forall i :: 0 <= i < |s| ==> IsLower(s[i]) || IsUpper(s[i]) || IsDigit(s[i])
  }

  /** [a-z][a-z0-9_]* that is not reserved. */
  predicate IsPackageName(s: string) {
    && 0 < |s| <= 100 && IsLower(s[0])
    && (forall i :: 0 <= i < |s| ==> IsLower(s[i]) || IsDigit(s[i]) || s[i] == '_')
    && s !in GO_KEYWORDS
  }

  /** [A-Z][A-Za-z0-9]*(?:\.[A-Z][A-Za-z0-9]*)* */
  predicate IsNamespace(s: string) {
    && 0 < |s| <= 100 && IsUpper(s[0])
    && (forall i :: 0 <= i < |s| ==> IsLower(s[i]) || IsUpper(s[i]) || IsDigit(s[i]) || s[i] == '.')
    && (forall i :: 0 <= i < |s| && s[i] == '.' ==> i + 1 < |s| && IsUpper(s[i + 1]))
  }

  const GO_KEYWORDS: set<string> := {
    "break", "default", "func", "interface", "select", "case", "defer", "go", "map", "struct", "chan", "else", "goto",
    "package", "switch", "const", "fallthrough", "if", "range", "type", "continue", "for", "import", "return", "var",
    "main"}

  const INITIALISMS: set<string> := {"id", "ip", "url", "http", "tcp", "api", "json", "uuid"}

  const BASE_TYPES: set<string> := {"string", "bool", "int32", "uint32", "int64", "uint64", "float64", "bytes", "json"}

  predicate IsType(kind: string) {
    (if |kind| >= 2 && kind[..2] == "[]" then kind[2..] else kind) in BASE_TYPES
  }

  /** A type is a base type or a list of one. */
  lemma TypeIsBaseOrList(kind: string)
    ensures IsType(kind) <==> kind in BASE_TYPES || exists base :: base in BASE_TYPES && kind == "[]" + base
  {
    if |kind| >= 2 && kind[..2] == "[]" {
      assert kind == "[]" + kind[2..];
      assert kind[0] == '[';
    }
  }

  /** Text without control characters. */
  predicate IsDescription(s: string) {
    |s| <= 1000 && forall i :: 0 <= i < |s| ==> 32 <= s[i] as int && !(127 <= s[i] as int <= 159)
  }

  // Go names

  function ToUpper(c: char): char { if IsLower(c) then c - 'a' + 'A' else c }

  function ToLower(c: char): char { if IsUpper(c) then c - 'A' + 'a' else c }

  function Upper(s: string): string { if s == "" then "" else [ToUpper(s[0])] + Upper(s[1..]) }

  function Lower(s: string): string { if s == "" then "" else [ToLower(s[0])] + Lower(s[1..]) }

  function Capitalize(s: string): string { if s == "" then "" else [ToUpper(s[0])] + Lower(s[1..]) }

  /** split("_") */
  function Words(s: string): (words: seq<string>)
    ensures words != []
  {
    if s == "" then [""]
    else
      var rest := Words(s[1..]);
      if s[0] == '_' then [""] + rest else [[s[0]] + rest[0]] + rest[1..]
  }

  function Join(words: seq<string>): string {
    if words == [] then ""
    else (if words[0] in INITIALISMS then Upper(words[0]) else Capitalize(words[0])) + Join(words[1..])
  }

  function GoField(name: string): string { Join(Words(name)) }

  predicate Alphanumeric(s: string) { forall i :: 0 <= i < |s| ==> IsLower(s[i]) || IsUpper(s[i]) || IsDigit(s[i]) }

  lemma {:induction false} UpperLetters(s: string)
    requires Alphanumeric(s)
    ensures Alphanumeric(Upper(s)) && Alphanumeric(Lower(s)) && |Upper(s)| == |s| == |Lower(s)|
  {
    if s != "" {
      UpperLetters(s[1..]);
    }
  }

  lemma {:induction false} WordsLetters(s: string)
    requires forall i :: 0 <= i < |s| ==> IsLower(s[i]) || IsDigit(s[i]) || s[i] == '_'
    ensures forall i :: 0 <= i < |Words(s)| ==> Alphanumeric(Words(s)[i])
  {
    if s != "" {
      WordsLetters(s[1..]);
    }
  }

  lemma {:induction false} JoinLetters(words: seq<string>)
    requires forall i :: 0 <= i < |words| ==> Alphanumeric(words[i])
    ensures Alphanumeric(Join(words))
  {
    if words != [] {
      JoinLetters(words[1..]);
      UpperLetters(words[0]);
      if words[0] != "" {
        UpperLetters(words[0][1..]);
      }
    }
  }

  /** The Go name of a field is an exported Go identifier. */
  lemma GoFieldExported(name: string)
    requires IsFieldName(name)
    ensures GoField(name) != "" && IsUpper(GoField(name)[0]) && Alphanumeric(GoField(name))
  {
    WordsLetters(name);
    JoinLetters(Words(name));
    var word := Words(name)[0];
    assert word[0] == name[0];
  }

  /** [a-z][a-z0-9]* */
  predicate IsWord(s: string) { s != "" && IsLower(s[0]) && InWord(s) }

  predicate InWord(s: string) { forall i :: 0 <= i < |s| ==> IsLower(s[i]) || IsDigit(s[i]) }

  /** Letters, digits and underscores, each underscore before a letter. */
  predicate Scans(s: string) {
    && (forall i :: 0 <= i < |s| ==> IsLower(s[i]) || IsDigit(s[i]) || s[i] == '_')
    && (forall i :: 0 <= i < |s| && s[i] == '_' ==> i + 1 < |s| && IsLower(s[i + 1]))
  }

  lemma ScansMore(c: char, s: string)
    ensures Scans([c] + s) <==> Scans(s) && if c == '_' then s != "" && IsLower(s[0]) else IsLower(c) || IsDigit(c)
  {
    var more := [c] + s;
    assert forall i :: 0 <= i < |s| ==> more[i + 1] == s[i];
    if Scans(more) {
      assert more[0] == c;
      forall i | 0 <= i < |s| && s[i] == '_' ensures i + 1 < |s| && IsLower(s[i + 1]) {
        assert more[i + 1] == '_';
      }
    }
  }

  predicate InWords(words: seq<string>) {
    words != [] && InWord(words[0]) && forall k :: 1 <= k < |words| ==> IsWord(words[k])
  }

  lemma InWordsMore(c: char, words: seq<string>)
    requires words != []
    ensures InWords([""] + words) <==> forall k :: 0 <= k < |words| ==> IsWord(words[k])
    ensures InWords([[c] + words[0]] + words[1..]) <==> (IsLower(c) || IsDigit(c)) && InWords(words)
  {
    var a, b := [""] + words, [[c] + words[0]] + words[1..];
    assert forall k :: 0 <= k < |words| ==> a[k + 1] == words[k];
    assert forall k :: 1 <= k < |words| ==> b[k] == words[k];
    var w := [c] + words[0];
    assert forall i :: 0 <= i < |words[0]| ==> w[i + 1] == words[0][i];
    assert w[0] == c;
  }

  lemma {:induction false} WordsScanned(s: string)
    ensures Scans(s) <==> InWords(Words(s))
    ensures Words(s)[0] <= s && (|Words(s)[0]| < |s| ==> s[|Words(s)[0]|] == '_')
  {
    if s != "" {
      var c, rest := s[0], s[1..];
      WordsScanned(rest);
      assert s == [c] + rest;
      hide Scans, InWords, IsWord, InWord;
      ScansMore(c, rest);
      InWordsMore(c, Words(rest));
      if c == '_' {
        FirstWord(rest);
      }
    }
  }

  /** The first word of a text of words begins as the text does. */
  lemma FirstWord(s: string)
    requires Words(s)[0] <= s && (|Words(s)[0]| < |s| ==> s[|Words(s)[0]|] == '_')
    ensures (forall k :: 0 <= k < |Words(s)| ==> IsWord(Words(s)[k]))
            <==> InWords(Words(s)) && s != "" && IsLower(s[0])
  {
  }

  /** A field name is one to a hundred characters long and made of words, each of which begins with a letter, with a
      single underscore between them. */
  lemma FieldNameIsWords(s: string)
    ensures IsFieldName(s) <==> |s| <= 100 && forall k :: 0 <= k < |Words(s)| ==> IsWord(Words(s)[k])
  {
    WordsScanned(s);
    FirstWord(s);
  }

  lemma WordsMore(c: char, s: string)
    ensures Words([c] + s) == if c == '_' then [""] + Words(s) else [[c] + Words(s)[0]] + Words(s)[1..]
  {
    assert ([c] + s)[1..] == s;
  }

  /** Different field names may have the same Go name. */
  lemma GoFieldsCollide()
    ensures IsFieldName("id") && IsFieldName("i_d") && GoField("id") == GoField("i_d") == "ID"
  {
    WordsMore('d', "");
    WordsMore('_', "d");
    WordsMore('i', "_d");
    WordsMore('i', "d");
    assert ['d'] + "" == "d" && ['_'] + "d" == "_d" && ['i'] + "_d" == "i_d" && ['i'] + "d" == "id";
    assert Words("d") == ["d"];
    assert Words("_d") == ["", "d"];
    assert ['i'] + "" == "i" && ["", "d"][1..] == ["d"];
    assert Words("i_d") == ["i", "d"];
    assert Words("id") == ["id"];
    assert "i"[0] == 'i' && |"i"| == 1 && |"d"| == 1;
    assert "i" !in INITIALISMS && "d" !in INITIALISMS;
    assert Capitalize("i") == "I" && Capitalize("d") == "D";
    assert Join(["d"]) == "D" by {
      assert ["d"][1..] == [];
    }
    assert Join(["i", "d"]) == "ID" by {
      assert ["i", "d"][1..] == ["d"];
    }
    assert Upper("d") == "D" && Upper("id") == "ID";
    assert ["id"][1..] == [];
  }

  // Order

  /** The order of strings by character codes. */
  predicate Before(a: string, b: string) {
    b != "" && (a == "" || (if a[0] != b[0] then a[0] < b[0] else Before(a[1..], b[1..])))
  }

  lemma {:induction false} BeforeTotal(a: string, b: string)
    ensures a == b || Before(a, b) || Before(b, a)
    ensures !(Before(a, b) && Before(b, a))
    ensures !Before(a, a)
  {
    if a != "" && b != "" && a[0] == b[0] {
      BeforeTotal(a[1..], b[1..]);
      assert a == [a[0]] + a[1..] && b == [b[0]] + b[1..];
    }
    if a != "" {
      BeforeSelf(a);
    }
  }

  lemma {:induction false} BeforeSelf(a: string)
    ensures !Before(a, a)
  {
    if a != "" {
      BeforeSelf(a[1..]);
    }
  }

  /** At the first character where they differ a has the smaller one, or a ends there. */
  predicate SmallerAt(a: string, b: string, n: nat) {
    n <= |a| && n < |b| && a[..n] == b[..n] && (n < |a| ==> a[n] < b[n])
  }

  lemma {:induction false} BeforeIsSmaller(a: string, b: string)
    ensures Before(a, b) <==> exists n :: SmallerAt(a, b, n)
  {
    if b == "" {
    } else if a == "" || a[0] != b[0] {
      if Before(a, b) {
        assert SmallerAt(a, b, 0);
      }
    } else {
      BeforeIsSmaller(a[1..], b[1..]);
      if n: nat :| SmallerAt(a[1..], b[1..], n) {
        assert a[..n + 1] == [a[0]] + a[1..][..n] && b[..n + 1] == [b[0]] + b[1..][..n];
        assert SmallerAt(a, b, n + 1);
      }
      if n: nat :| SmallerAt(a, b, n) {
        assert n > 0;
        assert a[1..][..n - 1] == a[..n][1..] && b[1..][..n - 1] == b[..n][1..];
        assert SmallerAt(a[1..], b[1..], n - 1);
      }
    }
  }

  lemma {:induction false} BeforeTransitive(a: string, b: string, c: string)
    requires Before(a, b) && Before(b, c)
    ensures Before(a, c)
  {
    if a != "" && a[0] == b[0] && b[0] == c[0] {
      BeforeTransitive(a[1..], b[1..], c[1..]);
    }
  }
}

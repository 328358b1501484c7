/** Character classes, the text normaliser shared by the similarity code, and
    the string splitting the analyzer relies on (JavaScript `split`, `trim`,
    `join`). Strings are sequences of Unicode scalar values. */
module Text {

  /** `\w` in a JavaScript regular expression without the `i` flag: ASCII
      letters, digits and the underscore. */
  predicate IsWordChar(c: char) {
    'a' <= c <= 'z' || 'A' <= c <= 'Z' || '0' <= c <= '9' || c == '_'
  }

  /** `\s` in JavaScript (WhiteSpace and LineTerminator); `String.prototype.trim`
      strips exactly the same characters. */
  predicate IsSpace(c: char) {
    var n := c as int;
    n == 0x09 || n == 0x0A || n == 0x0B || n == 0x0C || n == 0x0D || n == 0x20
    || n == 0xA0 || n == 0x1680 || (0x2000 <= n <= 0x200A) || n == 0x2028
    || n == 0x2029 || n == 0x202F || n == 0x205F || n == 0x3000 || n == 0xFEFF
  }

  predicate IsUpper(c: char) {
    'A' <= c <= 'Z'
  }

  /** The separators of the sentence split `/[.!?]+/`. */
  predicate IsTerminator(c: char) {
    c == '.' || c == '!' || c == '?'
  }

  /** The separator of `split(' ')`. */
  predicate IsBlank(c: char) {
    c == ' '
  }

  /** `toLowerCase` on one character: a capital becomes its small letter,
      every other character stays as it is. */
  function LowerChar(c: char): (d: char)
    ensures IsUpper(c) ==> d as int == c as int + 32
    ensures !IsUpper(c) ==> d == c
    ensures !IsUpper(d)
    ensures IsSpace(d) <==> IsSpace(c)
    ensures IsWordChar(d) <==> IsWordChar(c)
  {
    if IsUpper(c) then (c as int + 32) as char else c
  }

  /** `toLowerCase()`, restricted to the ASCII letters. */
  function Lower(s: string): (r: string)
    ensures |r| == |s|
    ensures forall i :: 0 <= i < |s| ==> r[i] == LowerChar(s[i])
  {
    seq(|s|, i requires 0 <= i < |s| => LowerChar(s[i]))
  }

  /** `.replace(/[^\w\s]/g, '')`: keeps word characters and white space. */
  function RemoveNonWord(s: string): (r: string)
    ensures |r| <= |s|
    ensures forall c :: c in r ==> c in s && (IsWordChar(c) || IsSpace(c))
    ensures (forall i :: 0 <= i < |s| ==> IsWordChar(s[i]) || IsSpace(s[i])) ==> r == s
  {
    if s == [] then []
    else if IsWordChar(s[0]) || IsSpace(s[0]) then [s[0]] + RemoveNonWord(s[1..])
    else RemoveNonWord(s[1..])
  }

  /** The removal keeps the order: the result for a concatenation is the
      concatenation of the results. */
  lemma {:induction false} RemoveNonWordAppend(a: string, b: string)
    ensures RemoveNonWord(a + b) == RemoveNonWord(a) + RemoveNonWord(b)
  {
    if a != [] {
      assert (a + b)[0] == a[0];
      assert (a + b)[1..] == a[1..] + b;
      RemoveNonWordAppend(a[1..], b);
      if IsWordChar(a[0]) || IsSpace(a[0]) {
        assert RemoveNonWord(a + b) == [a[0]] + (RemoveNonWord(a[1..]) + RemoveNonWord(b));
      }
    } else {
      assert a + b == b;
    }
  }

  /** The removal works character by character: a kept character survives
      alone, a removed one leaves nothing. */
  lemma RemoveNonWordChar(c: char)
    ensures RemoveNonWord([c]) == if IsWordChar(c) || IsSpace(c) then [c] else []
  {
    assert [c][1..] == [];
  }

  /** `.replace(/\s+/g, ' ')`: every run of white space becomes one blank
      (here the last character of the run is the one that is kept). */
  function CollapseSpaces(s: string): (r: string)
  {
    if s == [] then []
    else if IsSpace(s[0]) && |s| > 1 && IsSpace(s[1]) then CollapseSpaces(s[1..])
    else [if IsSpace(s[0]) then ' ' else s[0]] + CollapseSpaces(s[1..])
  }

  function TrimStart(s: string): (r: string)
    ensures |r| <= |s|
    ensures r != [] ==> !IsSpace(r[0])
    ensures forall i :: 0 <= i < |s| - |r| ==> IsSpace(s[i])
  {
    if s != [] && IsSpace(s[0]) then TrimStart(s[1..]) else s
  }

  lemma {:induction false} TrimStartSuffix(s: string)
    ensures TrimStart(s) == s[|s| - |TrimStart(s)|..]
  {
    if s != [] && IsSpace(s[0]) {
      TrimStartSuffix(s[1..]);
    }
  }

  function TrimEnd(s: string): (r: string)
    ensures |r| <= |s| && r == s[..|r|]
    ensures r != [] ==> !IsSpace(r[|r| - 1])
    ensures forall i :: |r| <= i < |s| ==> IsSpace(s[i])
  {
    if s != [] && IsSpace(s[|s| - 1]) then TrimEnd(s[..|s| - 1]) else s
  }

  /** `trim()`: drops leading and trailing white space. */
  function Trim(s: string): (r: string)
    ensures r != [] ==> !IsSpace(r[0]) && !IsSpace(r[|r| - 1])
  {
    TrimEnd(TrimStart(s))
  }

  /** The normaliser of background.js:387-392 (and :360-363): lower-case,
      delete everything that is neither a word character nor white space,
      collapse white space, trim. */
  function Normalize(text: string): string {
    Trim(CollapseSpaces(RemoveNonWord(Lower(text))))
  }

  /** The shape of a normalised text: lower-case word characters separated by
      single blanks, nothing at either end. */
  ghost predicate IsNormal(s: string) {
    && (forall i :: 0 <= i < |s| ==> s[i] == ' ' || (IsWordChar(s[i]) && !IsUpper(s[i])))
    && (|s| > 0 ==> s[0] != ' ' && s[|s| - 1] != ' ')
    && (forall i :: 0 <= i < |s| - 1 ==> s[i] != ' ' || s[i + 1] != ' ')
  }

  ghost predicate NormalChars(s: string) {
    forall i :: 0 <= i < |s| ==> s[i] == ' ' || (IsWordChar(s[i]) && !IsUpper(s[i]))
  }

  ghost predicate NoDoubleBlank(s: string) {
    forall i :: 0 <= i < |s| - 1 ==> s[i] != ' ' || s[i + 1] != ' '
  }

  /** What CollapseSpaces makes of lower-case word characters and white space. */
  lemma {:induction false} CollapseShape(s: string)
    requires forall c :: c in s ==> (IsWordChar(c) && !IsUpper(c)) || IsSpace(c)
    ensures NormalChars(CollapseSpaces(s)) && NoDoubleBlank(CollapseSpaces(s))
    ensures |CollapseSpaces(s)| > 0 <==> |s| > 0
    ensures |s| > 0 ==> (CollapseSpaces(s)[0] == ' ' <==> IsSpace(s[0]))
  {
    if s != [] {
      assert forall c :: c in s[1..] ==> c in s;
      CollapseShape(s[1..]);
    }
  }

  lemma {:induction false} TrimKeepsShape(s: string)
    requires NormalChars(s) && NoDoubleBlank(s)
    ensures IsNormal(Trim(s))
  {
    var a := TrimStart(s);
    var r := TrimEnd(a);
    TrimStartSuffix(s);
    assert r == a[..|r|];
    forall i | 0 <= i < |r| ensures r[i] == s[|s| - |a| + i] {
    }
    forall i | 0 <= i < |r| - 1 ensures r[i] != ' ' || r[i + 1] != ' ' {
      assert r[i] == s[|s| - |a| + i] && r[i + 1] == s[|s| - |a| + i + 1];
    }
  }

  /** Every output of the normaliser has the normal shape. */
  lemma NormalizeIsNormal(text: string)
    ensures IsNormal(Normalize(text))
  {
    var l := Lower(text);
    var w := RemoveNonWord(l);
    forall c | c in w ensures (IsWordChar(c) && !IsUpper(c)) || IsSpace(c) {
      assert c in l;
    }
    CollapseShape(w);
    TrimKeepsShape(CollapseSpaces(w));
  }

  lemma {:induction false} RemoveNonWordKeepsNormal(s: string)
    requires NormalChars(s)
    ensures RemoveNonWord(s) == s
  {
    if s != [] {
      RemoveNonWordKeepsNormal(s[1..]);
    }
  }

  lemma {:induction false} CollapseKeepsNormal(s: string)
    requires NormalChars(s) && NoDoubleBlank(s)
    ensures CollapseSpaces(s) == s
  {
    if s != [] {
      CollapseKeepsNormal(s[1..]);
    }
  }

  lemma LowerKeepsNormal(s: string)
    requires NormalChars(s)
    ensures Lower(s) == s
  {
  }

  /** Trimming leaves a text alone when neither end is white space. */
  lemma TrimWithoutOuterSpace(s: string)
    requires s != [] ==> !IsSpace(s[0]) && !IsSpace(s[|s| - 1])
    ensures Trim(s) == s
  {
    assert TrimStart(s) == s;
  }

  /** A normal text is a fixed point of the normaliser. */
  lemma NormalIsFixed(s: string)
    requires IsNormal(s)
    ensures Normalize(s) == s
  {
    LowerKeepsNormal(s);
    RemoveNonWordKeepsNormal(s);
    CollapseKeepsNormal(s);
    TrimWithoutOuterSpace(s);
  }

  /** Collapsing changes nothing in a text without white space. */
  lemma {:induction false} CollapseWithoutSpace(s: string)
    requires forall i :: 0 <= i < |s| ==> !IsSpace(s[i])
    ensures CollapseSpaces(s) == s
  {
    if s != [] {
      CollapseWithoutSpace(s[1..]);
      assert [s[0]] + s[1..] == s;
    }
  }

  /** A text without white space normalises to a text without white space:
      no step of the normaliser adds any. */
  lemma NormalizeWithoutSpace(text: string)
    requires forall i :: 0 <= i < |text| ==> !IsSpace(text[i])
    ensures forall i :: 0 <= i < |Normalize(text)| ==> !IsSpace(Normalize(text)[i])
  {
    var r := RemoveNonWord(Lower(text));
    forall i | 0 <= i < |r|
      ensures !IsSpace(r[i])
    {
      assert r[i] in Lower(text);
    }
    CollapseWithoutSpace(r);
    TrimWithoutOuterSpace(r);
  }

  /** Normalising twice is normalising once, so `extractKeyPhrases` applied to
      an already normalised text (background.js:407-408) sees the same text. */
  lemma NormalizeIdempotent(text: string)
    ensures Normalize(Normalize(text)) == Normalize(text)
  {
    NormalizeIsNormal(text);
    NormalIsFixed(Normalize(text));
  }

  /** JavaScript `split` with a one-character separator class: the pieces
      between separators, empty pieces included; never an empty list. */
  function Split(s: string, isSep: char -> bool): (pieces: seq<string>)
    ensures |pieces| >= 1
    ensures forall k, i :: 0 <= k < |pieces| && 0 <= i < |pieces[k]| ==> !isSep(pieces[k][i])
  {
    if s == [] then [[]]
    else
      var rest := Split(s[1..], isSep);
      if isSep(s[0]) then [[]] + rest else [[s[0]] + rest[0]] + rest[1..]
  }

  /** `join(sep)`. */
  function Join(ws: seq<string>, sep: char): string {
    if |ws| == 0 then []
    else if |ws| == 1 then ws[0]
    else ws[0] + [sep] + Join(ws[1..], sep)
  }

  /** Splitting on blanks and joining with a blank gives the text back. */
  lemma {:induction false} JoinSplit(s: string)
    ensures Join(Split(s, IsBlank), ' ') == s
  {
    if s != [] {
      JoinSplit(s[1..]);
      var rest := Split(s[1..], IsBlank);
      if !IsBlank(s[0]) && |rest| > 1 {
        assert Split(s, IsBlank)[1..] == rest[1..];
      }
    }
  }

  lemma {:induction false} SplitWithoutSeparator(s: string, isSep: char -> bool)
    requires forall i :: 0 <= i < |s| ==> !isSep(s[i])
    ensures Split(s, isSep) == [s]
  {
    if s != [] {
      SplitWithoutSeparator(s[1..], isSep);
      assert [s[0]] + s[1..] == s;
    }
  }

  /** `.filter(s => s.trim().length > 0)`. */
  function NonBlank(pieces: seq<string>): (r: seq<string>)
    ensures |r| <= |pieces|
  {
    if pieces == [] then []
    else (if Trim(pieces[0]) != [] then [pieces[0]] else []) + NonBlank(pieces[1..])
  }

  /** `.filter(word => word.length > 0)`. */
  function NonEmpty(pieces: seq<string>): (r: seq<string>)
    ensures |r| <= |pieces|
    ensures forall p :: p in r ==> p in pieces && p != []
  {
    if pieces == [] then []
    else (if pieces[0] != [] then [pieces[0]] else []) + NonEmpty(pieces[1..])
  }

  /** `text.split(/[.!?]+/).filter(s => s.trim().length > 0)`. Splitting on
      single terminators instead of runs only adds empty pieces, which the
      filter drops. */
  function Sentences(text: string): seq<string> {
    NonBlank(Split(text, IsTerminator))
  }

  /** `text.split(/\s+/).filter(word => word.length > 0)`. */
  function Words(text: string): seq<string> {
    NonEmpty(Split(text, IsSpace))
  }

  /** The sentence split finds nothing to split in a normal text: it yields no
      sentence for the empty text and the whole text otherwise. This is why
      `sentences1`/`sentences2` (background.js:398-399) and the sentence loop of
      `extractKeyPhrases` (background.js:366) never see a real sentence. */
  lemma NormalSentences(n: string)
    requires IsNormal(n)
    ensures Sentences(n) == if n == [] then [] else [n]
  {
    assert forall i :: 0 <= i < |n| ==> !IsTerminator(n[i]);
    SplitWithoutSeparator(n, IsTerminator);
    TrimWithoutOuterSpace(n);
  }

  /** A text with no words is all white space and so has no sentences either. */
  lemma {:induction false} NoWordsNoSentences(text: string)
    requires Words(text) == []
    ensures Sentences(text) == []
  {
    AllSpaceWithoutWords(text);
    AllSpaceNoSentences(text);
  }

  lemma {:induction false} AllSpaceWithoutWords(text: string)
    requires Words(text) == []
    ensures forall i :: 0 <= i < |text| ==> IsSpace(text[i])
  {
    if text != [] {
      var rest := Split(text[1..], IsSpace);
      if IsSpace(text[0]) {
        assert Split(text, IsSpace) == [[]] + rest;
        assert NonEmpty(Split(text, IsSpace)) == NonEmpty(rest);
        AllSpaceWithoutWords(text[1..]);
        forall i | 0 <= i < |text| ensures IsSpace(text[i]) {
          if i > 0 { assert text[i] == text[1..][i - 1]; }
        }
      }
    }
  }

  lemma {:induction false} AllSpaceNoSentences(text: string)
    requires forall i :: 0 <= i < |text| ==> IsSpace(text[i])
    ensures Sentences(text) == []
  {
    var pieces := Split(text, IsTerminator);
    forall k | 0 <= k < |pieces| ensures Trim(pieces[k]) == [] {
      AllSpacePieces(text, k);
      AllSpaceTrimmed(pieces[k]);
    }
    NonBlankOfBlanks(pieces);
  }

  lemma {:induction false} AllSpacePieces(text: string, k: nat)
    requires forall i :: 0 <= i < |text| ==> IsSpace(text[i])
    requires k < |Split(text, IsTerminator)|
    ensures forall i :: 0 <= i < |Split(text, IsTerminator)[k]| ==> IsSpace(Split(text, IsTerminator)[k][i])
  {
    if text != [] {
      var rest := Split(text[1..], IsTerminator);
      assert !IsTerminator(text[0]);
      assert Split(text, IsTerminator) == [[text[0]] + rest[0]] + rest[1..];
      if k == 0 {
        AllSpacePieces(text[1..], 0);
      } else {
        AllSpacePieces(text[1..], k);
      }
    }
  }

  lemma AllSpaceTrimmed(s: string)
    requires forall i :: 0 <= i < |s| ==> IsSpace(s[i])
    ensures Trim(s) == []
  {
    TrimStartSuffix(s);
  }

  lemma {:induction false} NonBlankOfBlanks(pieces: seq<string>)
    requires forall k :: 0 <= k < |pieces| ==> Trim(pieces[k]) == []
    ensures NonBlank(pieces) == []
  {
    if pieces != [] {
      NonBlankOfBlanks(pieces[1..]);
    }
  }

  /** The UTF-16 code units of one character: one unit below U+10000, a
      surrogate pair above. */
  function CodeUnits(c: char): (units: seq<int>)
    ensures 1 <= |units| <= 2
    ensures forall i :: 0 <= i < |units| ==> 0 <= units[i] < 0x10000
  {
    var n := c as int;
    if n < 0x10000 then [n]
    else [0xD800 + (n - 0x10000) / 0x400, 0xDC00 + (n - 0x10000) % 0x400]
  }

  /** The code units `charCodeAt` reads; their number is JavaScript's `length`. */
  function Utf16(s: string): (units: seq<int>)
    ensures |s| <= |units| <= 2 * |s|
    ensures forall i :: 0 <= i < |units| ==> 0 <= units[i] < 0x10000
  {
    if s == [] then [] else CodeUnits(s[0]) + Utf16(s[1..])
  }
}

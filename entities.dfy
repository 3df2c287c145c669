/**
 * The entity decoder of flairsync.py (`u` and `decode_entity` inside
 * `flair_from_reddit`): `re.sub(r'&#?\w+;', decode_entity, html)`.
 *
 * The scan is left to right and never overlaps: at each position either the
 * pattern matches (and the matched reference is replaced by what
 * `decode_entity` returns) or one character is copied. Without the UNICODE
 * flag, Python 2's `\w` is `[A-Za-z0-9_]`. The name table
 * (`htmlentitydefs.name2codepoint`) is a parameter.
 */
module Entities {
  import opened Wrappers

  /** The exceptions that `decode_entity` lets escape. */
  datatype DecodeError =
    /** `unichr(int(text[3:-1]), 16)` on an all-digit hex part: a TypeError (two arguments). */
    | HexReference(reference: string)
    /** `unichr` on a decimal value that does not fit a C int: an OverflowError. */
    | CodePointOverflow(reference: string)

  /** Entity name to character, as `htmlentitydefs.name2codepoint` followed by `unichr`. */
  type EntityTable = map<string, char>

  /** The largest value `unichr` accepts as its C `int` argument. */
  const IntMax: nat := 0x7FFF_FFFF

  predicate IsWordChar(c: char) {
    ('a' <= c <= 'z') || ('A' <= c <= 'Z') || ('0' <= c <= '9') || c == '_'
  }

  predicate IsDigit(c: char) {
    '0' <= c <= '9'
  }

  /** A non-empty run of `\w` characters, what `\w+` matches. */
  predicate IsWord(w: string) {
    |w| > 0 && forall i :: 0 <= i < |w| ==> IsWordChar(w[i])
  }

  /** A non-empty string of ASCII digits: exactly what `int()` accepts among `\w+` strings. */
  predicate AllDigits(w: string) {
    |w| > 0 && forall i :: 0 <= i < |w| ==> IsDigit(w[i])
  }

  /** The strings matched by the pattern `&#?\w+;`. */
  predicate IsReference(t: string) {
    && |t| >= 3
    && t[0] == '&'
    && t[|t| - 1] == ';'
    && (IsWord(t[1..|t| - 1]) || (t[1] == '#' && IsWord(t[2..|t| - 1])))
  }

  /** Code points `unichr` turns into a character this model can hold. */
  predicate IsScalar(n: nat) {
    n < 0xD800 || (0xE000 <= n < 0x11_0000)
  }

  /** `int(d)` for a string of ASCII digits. */
  function DecimalValue(d: string): nat
    requires forall i :: 0 <= i < |d| ==> IsDigit(d[i])
  {
    if d == [] then 0
    else
      assert IsDigit(d[|d| - 1]);
      10 * DecimalValue(d[..|d| - 1]) + (d[|d| - 1] as int - '0' as int)
  }

  /** The length of the run of `\w` characters of `s` that starts at `j`. */
  function WordRun(s: string, j: nat): (n: nat)
    requires j <= |s|
    ensures j + n <= |s|
    ensures forall k :: j <= k < j + n ==> IsWordChar(s[k])
    ensures j + n == |s| || !IsWordChar(s[j + n])
    decreases |s| - j
  {
    if j < |s| && IsWordChar(s[j]) then 1 + WordRun(s, j + 1) else 0
  }

  lemma {:induction false} WordRunOf(s: string, j: nat, n: nat)
    requires j + n < |s|
    requires forall k :: j <= k < j + n ==> IsWordChar(s[k])
    requires !IsWordChar(s[j + n])
    ensures WordRun(s, j) == n
    decreases n
  {
    if n > 0 {
      WordRunOf(s, j + 1, n - 1);
    }
  }

  /** Where the word of the pattern starts: after the `#` when there is one. */
  function WordStart(s: string): nat
  {
    if |s| > 1 && s[1] == '#' then 2 else 1
  }

  /**
   * Where a match of `&#?\w+;` that starts at the beginning of `s` ends.
   * The `#` is optional and tried first; since `#` is not a word character
   * and `;` ends the word, there is at most one match.
   */
  function MatchEnd(s: string): (r: Option<nat>)
    ensures r.Some? ==> 3 <= r.value <= |s| && IsReference(s[..r.value])
    ensures forall e :: 0 < e <= |s| && IsReference(s[..e]) ==> r == Some(e)
  {
    if |s| > 0 && s[0] == '&' then
      var j := WordStart(s);
      var n := WordRun(s, j);
      ReferenceRun(s);
      if n > 0 && j + n < |s| && s[j + n] == ';' then
        assert s[..j + n + 1][j..j + n] == s[j..j + n];
        Some(j + n + 1)
      else
        None
    else
      None
  }

  /** Any match that starts `s` ends right after the word run that follows `&` or `&#`. */
  lemma ReferenceRun(s: string)
    requires |s| > 0 && s[0] == '&'
    ensures forall e :: 0 < e <= |s| && IsReference(s[..e]) ==>
      WordStart(s) < e - 1 && WordRun(s, WordStart(s)) == e - 1 - WordStart(s) && s[e - 1] == ';'
  {
    forall e | 0 < e <= |s| && IsReference(s[..e])
      ensures WordStart(s) < e - 1 && WordRun(s, WordStart(s)) == e - 1 - WordStart(s) && s[e - 1] == ';'
    {
      ReferenceEnd(s, e);
    }
  }

  /** A match `s[..e]` is `&`, an optional `#`, the word run and `;`. */
  lemma ReferenceEnd(s: string, e: nat)
    requires 0 < e <= |s| && IsReference(s[..e])
    ensures WordStart(s) < e - 1 && WordRun(s, WordStart(s)) == e - 1 - WordStart(s) && s[e - 1] == ';'
  {
    var t := s[..e];
    var j := WordStart(s);
    assert t[1] == s[1];
    if t[1] == '#' {
      assert t[1..e - 1][0] == '#';
    }
    var w := t[j..e - 1];
    assert IsWord(w);
    forall k | j <= k < e - 1 ensures IsWordChar(s[k]) {
      assert w[k - j] == t[k];
    }
    assert t[e - 1] == ';';
    WordRunOf(s, j, e - 1 - j);
  }

  /**
   * `decode_entity` applied to one matched reference: it is replaced by one
   * character or left as it is, and only a numeric reference can raise.
   */
  function DecodeEntity(text: string, table: EntityTable): (r: Result<string, DecodeError>)
    requires IsReference(text)
    ensures r.Success? ==> r.value == text || |r.value| == 1
    ensures r.Failure? ==> text[1] == '#' && r.error.reference == text
    ensures text[1] != '#' ==> r.Success?
  {
    if text[1] == '#' then
      assert !IsWord(text[1..|text| - 1]) by { assert text[1..|text| - 1][0] == '#'; }
      if text[2] == 'x' then
        // int(text[3:-1]) succeeds only on digits, and then unichr is given two arguments
        if AllDigits(text[3..|text| - 1]) then Failure(HexReference(text)) else Success(text)
      else
        var d := text[2..|text| - 1];
        if !AllDigits(d) then Success(text)
        else if DecimalValue(d) > IntMax then Failure(CodePointOverflow(text))
        else if IsScalar(DecimalValue(d)) then Success([DecimalValue(d) as char])
        else Success(text)
    else
      var name := text[1..|text| - 1];
      if name in table then Success([table[name]]) else Success(text)
  }

  /** Puts `p` in front of a successful result; a failure passes through. */
  function Prepend(p: string, r: Result<string, DecodeError>): Result<string, DecodeError>
  {
    match r
    case Success(v) => Success(p + v)
    case Failure(e) => Failure(e)
  }

  /** `re.sub(r'&#?\w+;', decode_entity, s)`; the first exception raised stops it. */
  function Unescape(s: string, table: EntityTable): (r: Result<string, DecodeError>)
    ensures r.Success? ==> |r.value| <= |s|
    decreases |s|
  {
    if s == [] then Success([])
    else
      match MatchEnd(s)
      case Some(e) =>
        (match DecodeEntity(s[..e], table)
         case Failure(err) => Failure(err)
         case Success(t) => Prepend(t, Unescape(s[e..], table)))
      case None => Prepend([s[0]], Unescape(s[1..], table))
  }

  /** `u(html)`: `None` passes through, a string is unescaped. */
  function Decode(html: Option<string>, table: EntityTable): (r: Result<Option<string>, DecodeError>)
    ensures html.None? ==> r == Success(None)
    ensures html.Some? && '&' !in html.value ==> r == Success(html)
  {
    match html
    case None => Success(None)
    case Some(s) =>
      PlainUnchanged(s, table);
      var r := Unescape(s, table);
      if r.Success? then Success(Some(r.value)) else Failure(r.error)
  }

  /** A character other than `&` is copied, and decoding goes on after it. */
  lemma CopyStep(c: char, rest: string, table: EntityTable)
    requires c != '&'
    ensures Unescape([c] + rest, table) == Prepend([c], Unescape(rest, table))
  {
    var s := [c] + rest;
    assert s[0] == c && MatchEnd(s) == None;
    assert s[1..] == rest;
  }

  lemma PrependTwice(a: string, b: string, r: Result<string, DecodeError>)
    ensures Prepend(a, Prepend(b, r)) == Prepend(a + b, r)
  {
    if r.Success? {
      assert a + (b + r.value) == (a + b) + r.value;
    }
  }

  /** Text without `&` is copied, and decoding goes on after it. */
  lemma {:induction false} PlainPrefix(p: string, s: string, table: EntityTable)
    requires '&' !in p
    ensures Unescape(p + s, table) == Prepend(p, Unescape(s, table))
    decreases |p|
  {
    if p == [] {
      assert p + s == s;
      var r := Unescape(s, table);
      if r.Success? {
        assert p + r.value == r.value;
      }
    } else {
      assert p + s == [p[0]] + (p[1..] + s);
      assert p[0] in p;
      CopyStep(p[0], p[1..] + s, table);
      PlainPrefix(p[1..], s, table);
      PrependTwice([p[0]], p[1..], Unescape(s, table));
      assert [p[0]] + p[1..] == p;
    }
  }

  /** A string without `&` decodes to itself. */
  lemma PlainUnchanged(s: string, table: EntityTable)
    ensures '&' !in s ==> Unescape(s, table) == Success(s)
  {
    if '&' !in s {
      PlainPrefix(s, [], table);
      assert s + [] == s;
    }
  }

  /** Where `&#?\w+;` does not match at the front, the first character is copied and the scan goes on after it. */
  lemma NoReferenceCopied(s: string, table: EntityTable)
    requires |s| > 0 && forall e :: 0 < e <= |s| ==> !IsReference(s[..e])
    ensures Unescape(s, table) == Prepend([s[0]], Unescape(s[1..], table))
  {
    assert MatchEnd(s).None?;
  }

  /** A reference at the start is decoded by `decode_entity`, and decoding goes on after it. */
  lemma ReferenceFirst(t: string, s: string, table: EntityTable)
    requires IsReference(t)
    ensures DecodeEntity(t, table).Failure? ==> Unescape(t + s, table) == DecodeEntity(t, table)
    ensures DecodeEntity(t, table).Success? ==>
      Unescape(t + s, table) == Prepend(DecodeEntity(t, table).value, Unescape(s, table))
  {
    var ts := t + s;
    assert ts[..|t|] == t;
    assert MatchEnd(ts) == Some(|t|);
    assert ts[|t|..] == s;
  }

  /** `&#NNN;` becomes the character with code NNN. */
  lemma DecimalReference(d: string, s: string, table: EntityTable)
    requires AllDigits(d) && IsScalar(DecimalValue(d))
    ensures Unescape("&#" + d + ";" + s, table) == Prepend([DecimalValue(d) as char], Unescape(s, table))
  {
    var t := "&#" + d + ";";
    assert t[2..|t| - 1] == d && t[1..|t| - 1][0] == '#';
    assert IsReference(t);
    ReferenceFirst(t, s, table);
    assert t + s == "&#" + d + ";" + s;
  }

  /** `&#` followed by a word that is not a number (and not hex-prefixed) is left as it is. */
  lemma NonNumericReference(w: string, s: string, table: EntityTable)
    requires IsWord(w) && !AllDigits(w) && w[0] != 'x'
    ensures Unescape("&#" + w + ";" + s, table) == Prepend("&#" + w + ";", Unescape(s, table))
  {
    var t := "&#" + w + ";";
    assert t[2..|t| - 1] == w && t[1..|t| - 1][0] == '#';
    assert IsReference(t);
    ReferenceFirst(t, s, table);
    assert t + s == "&#" + w + ";" + s;
  }

  /**
   * A decimal value that fits a C int but is no character (a surrogate, or
   * 0x110000 and above) makes `unichr` raise `ValueError`, which is caught:
   * the reference is left as it is.
   */
  lemma OutOfRangeReference(d: string, s: string, table: EntityTable)
    requires AllDigits(d) && DecimalValue(d) <= IntMax && !IsScalar(DecimalValue(d))
    ensures Unescape("&#" + d + ";" + s, table) == Prepend("&#" + d + ";", Unescape(s, table))
  {
    var t := "&#" + d + ";";
    assert t[2..|t| - 1] == d && t[1..|t| - 1][0] == '#';
    assert IsReference(t);
    ReferenceFirst(t, s, table);
    assert t + s == "&#" + d + ";" + s;
  }

  /** A decimal value too large for a C int makes `unichr` raise, and the decoder with it. */
  lemma OverflowingReference(d: string, s: string, table: EntityTable)
    requires AllDigits(d) && DecimalValue(d) > IntMax
    ensures Unescape("&#" + d + ";" + s, table) == Failure(CodePointOverflow("&#" + d + ";"))
  {
    var t := "&#" + d + ";";
    assert t[2..|t| - 1] == d && t[1..|t| - 1][0] == '#';
    assert IsReference(t);
    ReferenceFirst(t, s, table);
    assert t + s == "&#" + d + ";" + s;
  }

  /** `&#x` followed by decimal digits raises (the misplaced base argument); any other hex text is left as it is. */
  lemma HexReferenceOutcome(w: string, s: string, table: EntityTable)
    requires |w| == 0 || IsWord(w)
    ensures AllDigits(w) ==> Unescape("&#x" + w + ";" + s, table) == Failure(HexReference("&#x" + w + ";"))
    ensures !AllDigits(w) ==> Unescape("&#x" + w + ";" + s, table) == Prepend("&#x" + w + ";", Unescape(s, table))
  {
    var t := "&#x" + w + ";";
    assert t[3..|t| - 1] == w && t[2..|t| - 1] == "x" + w && t[1..|t| - 1][0] == '#';
    assert IsWord(t[2..|t| - 1]);
    assert IsReference(t);
    ReferenceFirst(t, s, table);
    assert t + s == "&#x" + w + ";" + s;
  }

  /** `&name;` becomes the table's character when the name is known and is left as it is otherwise. */
  lemma NamedReference(name: string, s: string, table: EntityTable)
    requires IsWord(name)
    ensures name in table ==> Unescape("&" + name + ";" + s, table) == Prepend([table[name]], Unescape(s, table))
    ensures name !in table ==> Unescape("&" + name + ";" + s, table) == Prepend("&" + name + ";", Unescape(s, table))
  {
    var t := "&" + name + ";";
    assert t[1..|t| - 1] == name && t[1] == name[0];
    assert IsReference(t);
    ReferenceFirst(t, s, table);
    assert t + s == "&" + name + ";" + s;
  }

  /** `&amp;` decodes to `&` with the standard table entry. */
  lemma AmpExample(table: EntityTable)
    requires "amp" in table && table["amp"] == '&'
    ensures Unescape("&amp;", table) == Success("&")
  {
    var t := "&amp;";
    assert t == "&" + "amp" + ";" + "";
    NamedReference("amp", "", table);
    assert Unescape("", table) == Success("");
    assert [table["amp"]] + "" == "&";
  }

  /** `&#65;` decodes to `A`. */
  lemma DecimalExample(table: EntityTable)
    ensures Unescape("&#65;", table) == Success("A")
  {
    assert AllDigits("65") && DecimalValue("65") == 65;
    DecimalReference("65", "", table);
    assert "&#65;" == "&#" + "65" + ";" + "";
    assert Unescape("", table) == Success("");
    assert [(65 as char)] + "" == "A";
  }

  /** An unknown name is left as it is. */
  lemma BogusExample(table: EntityTable)
    requires "bogus" !in table
    ensures Unescape("&bogus;", table) == Success("&bogus;")
  {
    var t := "&bogus;";
    assert t == "&" + "bogus" + ";" + "";
    NamedReference("bogus", "", table);
    assert Unescape("", table) == Success("");
    assert t + "" == t;
  }

  /** `&#x41;` does not decode to `A`: the decoder raises. */
  lemma HexExample(table: EntityTable)
    ensures Unescape("&#x41;", table) == Failure(HexReference("&#x41;"))
  {
    assert AllDigits("41");
    HexReferenceOutcome("41", "", table);
    assert "&#x41;" == "&#x" + "41" + ";" + "" == "&#x" + "41" + ";";
    assert Unescape("", table) == Success("");
  }

  /** An `&` that starts no reference is copied: `AT&T` stays `AT&T`. */
  lemma AtAndTExample(table: EntityTable)
    ensures Unescape("AT&T", table) == Success("AT&T")
  {
    var t := "AT&T";
    assert t == "AT" + "&T";
    assert '&' !in "AT";
    PlainPrefix("AT", "&T", table);
    var r := "&T";
    forall e | 0 < e <= |r| ensures !IsReference(r[..e]) {
      assert |r[..e]| < 3;
    }
    NoReferenceCopied(r, table);
    assert r[1..] == "T" && '&' !in "T";
    PlainUnchanged("T", table);
    assert "AT" + ("&" + "T") == t;
  }

  /** `&#;` has no word after `&#`, so it is no reference and stays as it is. */
  lemma EmptyNumericExample(table: EntityTable)
    ensures Unescape("&#;", table) == Success("&#;")
  {
    var r := "&#;";
    forall e | 0 < e <= |r| ensures !IsReference(r[..e]) {
      if e == 3 {
        assert r[..e] == r;
        assert !IsWordChar(r[1]) && r[2..2] == [];
      }
    }
    NoReferenceCopied(r, table);
    assert r[1..] == "#;" && '&' !in "#;";
    PlainUnchanged("#;", table);
    assert "&" + "#;" == r;
  }

  /** `&amp` without its `;` is no reference and stays as it is, whatever the table holds. */
  lemma UnterminatedExample(table: EntityTable)
    ensures Unescape("&amp", table) == Success("&amp")
  {
    var r := "&amp";
    forall e | 0 < e <= |r| ensures !IsReference(r[..e]) {
      assert r[..e][e - 1] == r[e - 1] != ';';
    }
    NoReferenceCopied(r, table);
    assert r[1..] == "amp" && '&' !in "amp";
    PlainUnchanged("amp", table);
    assert "&" + "amp" == r;
  }
}

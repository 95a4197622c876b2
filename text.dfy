/** The JavaScript string operations the chat client relies on, over `seq<char>`. */
module Text {

  /** `s.startsWith(prefix)`. */
  predicate StartsWith(s: string, prefix: string) {
    |prefix| <= |s| && s[..|prefix|] == prefix
  }

  /** `s.split(sep)` for a one-character separator: the pieces between separators, always at least one. */
  function Split(s: string, sep: char): (r: seq<string>)
    ensures |r| >= 1
    decreases |s|
  {
    if s == [] then [""]
    else
      var rest := Split(s[1..], sep);
      if s[0] == sep then [""] + rest
      else [[s[0]] + rest[0]] + rest[1..]
  }

  /** `pieces.join(sep)`. */
  function Join(pieces: seq<string>, sep: char): string
    decreases |pieces|
  {
    if pieces == [] then ""
    else if |pieces| == 1 then pieces[0]
    else pieces[0] + [sep] + Join(pieces[1..], sep)
  }

  /** No piece of a split contains the separator. */
  lemma {:induction false} SplitPiecesFree(s: string, sep: char)
    ensures forall i :: 0 <= i < |Split(s, sep)| ==> sep !in Split(s, sep)[i]
    decreases |s|
  {
    if s != [] {
      SplitPiecesFree(s[1..], sep);
      var rest := Split(s[1..], sep);
      var r := Split(s, sep);
      if s[0] == sep {
        assert r == [""] + rest;
        forall i | 0 < i < |r| ensures sep !in r[i] {
          assert r[i] == rest[i - 1];
        }
      } else {
        assert r == [[s[0]] + rest[0]] + rest[1..];
        assert sep !in rest[0];
        forall i | 0 < i < |r| ensures sep !in r[i] {
          assert r[i] == rest[i];
        }
      }
    }
  }

  /** Splitting loses nothing: joining the pieces back gives the original string. */
  lemma {:induction false} JoinSplit(s: string, sep: char)
    ensures Join(Split(s, sep), sep) == s
    decreases |s|
  {
    if s != [] {
      var rest := Split(s[1..], sep);
      JoinSplit(s[1..], sep);
      assert s == [s[0]] + s[1..];
      if s[0] == sep {
        SplitSepHead(s[1..], sep);
        JoinEmptyHead(rest, sep);
      } else {
        SplitCharHead(s[0], s[1..], sep);
        JoinGlueHead(s[0], rest, sep);
      }
    }
  }

  /** An empty first piece joins as a leading separator. */
  lemma JoinEmptyHead(pieces: seq<string>, sep: char)
    requires |pieces| >= 1
    ensures Join([""] + pieces, sep) == [sep] + Join(pieces, sep)
  {
    var glued := [""] + pieces;
    assert glued[0] == "" && glued[1..] == pieces;
    assert Join(glued, sep) == glued[0] + [sep] + Join(glued[1..], sep);
    assert "" + [sep] + Join(pieces, sep) == [sep] + Join(pieces, sep);
  }

  /** A character glued to the first piece joins in front of the whole. */
  lemma JoinGlueHead(c: char, pieces: seq<string>, sep: char)
    requires |pieces| >= 1
    ensures Join([[c] + pieces[0]] + pieces[1..], sep) == [c] + Join(pieces, sep)
  {
    var glued := [[c] + pieces[0]] + pieces[1..];
    assert glued[1..] == pieces[1..];
  }

  /** A prefix free of the separator stays glued to the first piece of what follows it. */
  lemma {:induction false} SplitGluedPrefix(p: string, t: string, sep: char)
    requires sep !in p
    ensures Split(p + t, sep) == [p + Split(t, sep)[0]] + Split(t, sep)[1..]
    decreases |p|
  {
    if p != [] {
      assert (p + t)[0] == p[0];
      assert (p + t)[1..] == p[1..] + t;
      SplitGluedPrefix(p[1..], t, sep);
      assert [p[0]] + (p[1..] + Split(t, sep)[0]) == p + Split(t, sep)[0];
    } else {
      var r := Split(t, sep);
      assert r == [r[0]] + r[1..];
      assert p + t == t && p + r[0] == r[0];
    }
  }

  /** Joining separator-free pieces and splitting again gives the pieces back. */
  lemma {:induction false} SplitJoin(pieces: seq<string>, sep: char)
    requires |pieces| >= 1
    requires forall i :: 0 <= i < |pieces| ==> sep !in pieces[i]
    ensures Split(Join(pieces, sep), sep) == pieces
    decreases |pieces|
  {
    if |pieces| == 1 {
      SplitGluedPrefix(pieces[0], "", sep);
      assert pieces[0] + "" == pieces[0];
    } else {
      var tail := Join(pieces[1..], sep);
      SplitJoin(pieces[1..], sep);
      assert pieces[0] + [sep] + tail == pieces[0] + ([sep] + tail);
      SplitGluedPrefix(pieces[0], [sep] + tail, sep);
      assert ([sep] + tail)[1..] == tail;
      assert Split([sep] + tail, sep) == [""] + pieces[1..];
      assert pieces[0] + "" == pieces[0];
    }
  }

  function DropLast<T>(s: seq<T>): seq<T>
    requires |s| >= 1
  {
    s[..|s| - 1]
  }

  function Last<T>(s: seq<T>): T
    requires |s| >= 1
  {
    s[|s| - 1]
  }

  /**
   * Splitting a concatenation: the complete pieces of `x` come first, then the
   * last (unterminated) piece of `x` is continued by `y`.
   */
  lemma {:induction false} SplitAppend(x: string, y: string, sep: char)
    ensures Split(x + y, sep) == DropLast(Split(x, sep)) + Split(Last(Split(x, sep)) + y, sep)
    decreases |x|
  {
    if x == [] {
      assert x + y == y;
      assert "" + y == y;
    } else {
      assert x == [x[0]] + x[1..];
      assert x + y == [x[0]] + (x[1..] + y);
      SplitAppend(x[1..], y, sep);
      if x[0] == sep {
        SplitAppendSepHead(x[1..], y, sep);
      } else {
        SplitAppendCharHead(x[0], x[1..], y, sep);
      }
    }
  }

  /** SplitAppend, the step for a string that starts with the separator. */
  lemma SplitAppendSepHead(x: string, y: string, sep: char)
    requires Split(x + y, sep) == DropLast(Split(x, sep)) + Split(Last(Split(x, sep)) + y, sep)
    ensures Split([sep] + (x + y), sep)
         == DropLast(Split([sep] + x, sep)) + Split(Last(Split([sep] + x, sep)) + y, sep)
  {
    var p := Split(x, sep);
    var q := Split(Last(p) + y, sep);
    SplitSepHead(x + y, sep);
    SplitSepHead(x, sep);
    ConsFront("", p, q);
  }

  /** Putting an element in front commutes with dropping the last element and appending. */
  lemma ConsFront<T>(h: T, p: seq<T>, q: seq<T>)
    requires |p| >= 1
    ensures DropLast([h] + p) + q == [h] + (DropLast(p) + q)
    ensures Last([h] + p) == Last(p)
  {
    assert DropLast([h] + p) == [h] + DropLast(p);
  }

  /** A leading separator splits off an empty first piece. */
  lemma SplitSepHead(s: string, sep: char)
    ensures Split([sep] + s, sep) == [""] + Split(s, sep)
  {
    assert ([sep] + s)[1..] == s;
  }

  /** SplitAppend, the step for a string that starts with another character. */
  lemma SplitAppendCharHead(c: char, x: string, y: string, sep: char)
    requires c != sep
    requires Split(x + y, sep) == DropLast(Split(x, sep)) + Split(Last(Split(x, sep)) + y, sep)
    ensures Split([c] + (x + y), sep)
         == DropLast(Split([c] + x, sep)) + Split(Last(Split([c] + x, sep)) + y, sep)
  {
    var p := Split(x, sep);
    var q := Split(Last(p) + y, sep);
    SplitCharHead(c, x + y, sep);
    SplitCharHead(c, x, sep);
    if |p| == 1 {
      GlueSingle(c, p[0]);
      SplitCharHead(c, p[0] + y, sep);
      assert [c] + p[0] + y == [c] + (p[0] + y);
    } else {
      GlueFront(c, p, q);
    }
  }

  /** The one-piece case of SplitAppendCharHead, on sequences alone. */
  lemma GlueSingle(c: char, piece: string)
    ensures DropLast([[c] + piece] + [piece][1..]) == []
    ensures Last([[c] + piece] + [piece][1..]) == [c] + piece
  {
    assert [piece][1..] == [];
  }

  /** The several-piece case of SplitAppendCharHead, on sequences alone. */
  lemma GlueFront(c: char, p: seq<string>, q: seq<string>)
    requires |p| >= 2
    ensures var r := DropLast(p) + q;
            DropLast([[c] + p[0]] + p[1..]) + q == [[c] + r[0]] + r[1..]
    ensures Last([[c] + p[0]] + p[1..]) == Last(p)
  {
    var r := DropLast(p) + q;
    assert r[0] == p[0];
    assert r[1..] == DropLast(p)[1..] + q;
    assert DropLast([[c] + p[0]] + p[1..]) == [[c] + p[0]] + DropLast(p)[1..];
  }

  /** A leading character other than the separator joins the first piece. */
  lemma SplitCharHead(c: char, s: string, sep: char)
    requires c != sep
    ensures Split([c] + s, sep) == [[c] + Split(s, sep)[0]] + Split(s, sep)[1..]
  {
    assert ([c] + s)[1..] == s;
  }

  /** A string that ends with the separator has an empty last piece. */
  lemma {:induction false} SplitEndsWithSep(s: string, sep: char)
    requires |s| >= 1 && s[|s| - 1] == sep
    ensures Last(Split(s, sep)) == ""
  {
    var x := s[..|s| - 1];
    assert s == x + [sep];
    SplitAppend(x, [sep], sep);
    assert ([sep])[1..] == [];
    assert Split([sep], sep) == [""] + Split([], sep);
    SplitPiecesFree(x, sep);
    SplitGluedPrefix(Last(Split(x, sep)), [sep], sep);
  }

  lemma AppendAssoc<T>(x: seq<T>, y: seq<T>, z: seq<T>)
    ensures (x + y) + z == x + (y + z)
  {
  }

  /** The strings of `texts` concatenated in order (`texts.join('')`). */
  function Concat(texts: seq<string>): string
    decreases |texts|
  {
    if texts == [] then "" else Concat(DropLast(texts)) + Last(texts)
  }

  /** Concatenation distributes over appending lists of strings. */
  lemma {:induction false} ConcatAppend(a: seq<string>, b: seq<string>)
    ensures Concat(a + b) == Concat(a) + Concat(b)
    decreases |b|
  {
    if b == [] {
      assert a + b == a;
    } else {
      assert DropLast(a + b) == a + DropLast(b);
      assert Last(a + b) == Last(b);
      ConcatAppend(a, DropLast(b));
    }
  }

  /** The characters JavaScript's `String.prototype.trim` removes: white space and line terminators. */
  predicate IsJsWhitespace(c: char) {
    || c == '\t' || c == '\n' || c == '\U{000B}' || c == '\U{000C}' || c == '\r' || c == ' '
    || c == '\U{00A0}' || c == '\U{1680}' || ('\U{2000}' <= c <= '\U{200A}')
    || c == '\U{2028}' || c == '\U{2029}' || c == '\U{202F}' || c == '\U{205F}'
    || c == '\U{3000}' || c == '\U{FEFF}'
  }

  function TrimStart(s: string): string
    decreases |s|
  {
    if s != [] && IsJsWhitespace(s[0]) then TrimStart(s[1..]) else s
  }

  function TrimEnd(s: string): string
    decreases |s|
  {
    if s != [] && IsJsWhitespace(Last(s)) then TrimEnd(DropLast(s)) else s
  }

  /** `s.trim()`. */
  function Trim(s: string): string {
    TrimEnd(TrimStart(s))
  }

  /** Every character of `s` satisfies `p`. */
  predicate All(s: string, p: char -> bool) {
    forall i :: 0 <= i < |s| ==> p(s[i])
  }

  predicate AllWhitespace(s: string) {
    All(s, IsJsWhitespace)
  }

  lemma AllCons(s: string, p: char -> bool)
    requires s != []
    ensures All(s, p) <==> p(s[0]) && All(s[1..], p)
  {
    if p(s[0]) && All(s[1..], p) {
      forall i | 0 < i < |s| ensures p(s[i]) {
        assert s[i] == s[1..][i - 1];
      }
    }
  }

  lemma AllSnoc(s: string, p: char -> bool)
    requires s != []
    ensures All(s, p) <==> All(DropLast(s), p) && p(Last(s))
  {
    if All(DropLast(s), p) && p(Last(s)) {
      forall i | 0 <= i < |s| - 1 ensures p(s[i]) {
        assert s[i] == DropLast(s)[i];
      }
    }
  }

  lemma AllSplitAt(s: string, k: nat, p: char -> bool)
    requires k <= |s|
    ensures All(s, p) <==> All(s[..k], p) && All(s[k..], p)
  {
    if All(s[..k], p) && All(s[k..], p) {
      forall i | 0 <= i < |s| ensures p(s[i]) {
        if i < k { assert s[i] == s[..k][i]; } else { assert s[i] == s[k..][i - k]; }
      }
    }
    if All(s, p) {
      forall i | 0 <= i < |s[k..]| ensures p(s[k..][i]) {
        assert s[k..][i] == s[k + i];
      }
    }
  }

  /** TrimStart is empty exactly when every character is trimmed. */
  lemma {:induction false} TrimStartEmpty(s: string)
    ensures TrimStart(s) == "" <==> AllWhitespace(s)
    decreases |s|
  {
    if s != [] {
      TrimStartEmpty(s[1..]);
      AllCons(s, IsJsWhitespace);
    }
  }

  /** TrimEnd is empty exactly when every character is trimmed. */
  lemma {:induction false} TrimEndEmpty(s: string)
    ensures TrimEnd(s) == "" <==> AllWhitespace(s)
    decreases |s|
  {
    if s != [] {
      TrimEndEmpty(DropLast(s));
      AllSnoc(s, IsJsWhitespace);
    }
  }

  /** The number of leading characters TrimStart removes. */
  function LeadingWhitespace(s: string): (n: nat)
    ensures n <= |s|
    decreases |s|
  {
    if s != [] && IsJsWhitespace(s[0]) then 1 + LeadingWhitespace(s[1..]) else 0
  }

  /** TrimStart removes a white-space prefix and keeps the rest. */
  lemma {:induction false} TrimStartSuffix(s: string)
    ensures TrimStart(s) == s[LeadingWhitespace(s)..]
    ensures AllWhitespace(s[..LeadingWhitespace(s)])
    decreases |s|
  {
    if s != [] && IsJsWhitespace(s[0]) {
      var k := LeadingWhitespace(s[1..]);
      TrimStartSuffix(s[1..]);
      assert s[1..][k..] == s[k + 1..];
      var u := s[..k + 1];
      assert u[0] == s[0] && u[1..] == s[1..][..k];
      AllCons(u, IsJsWhitespace);
    } else {
      assert s[0..] == s;
      assert s[..0] == [];
    }
  }

  /** An input counts as blank (`!s.trim()`) exactly when every character of it is trimmed away. */
  lemma {:induction false} TrimEmptyIffBlank(s: string)
    ensures Trim(s) == "" <==> AllWhitespace(s)
  {
    var k := LeadingWhitespace(s);
    TrimStartSuffix(s);
    TrimEndEmpty(s[k..]);
    AllSplitAt(s, k, IsJsWhitespace);
  }

  /** The decimal digit for `d`. */
  function DigitChar(d: nat): char
    requires d < 10
  {
    "0123456789"[d]
  }

  /** The decimal rendering of a number in a template literal, `${n}`. */
  function NatToString(n: nat): (r: string)
    ensures |r| >= 1
    ensures forall i :: 0 <= i < |r| ==> '0' <= r[i] <= '9'
    decreases n
  {
    if n < 10 then [DigitChar(n)] else NatToString(n / 10) + [DigitChar(n % 10)]
  }

  /** The value of a string of decimal digits. */
  function DecimalValue(s: string): nat
    requires forall i :: 0 <= i < |s| ==> '0' <= s[i] <= '9'
    decreases |s|
  {
    if s == [] then 0 else 10 * DecimalValue(DropLast(s)) + (Last(s) as int - '0' as int)
  }

  /** The rendered digits read back as the same number. */
  lemma {:induction false} NatToStringValue(n: nat)
    ensures DecimalValue(NatToString(n)) == n
    decreases n
  {
    if n >= 10 {
      NatToStringValue(n / 10);
      var r := NatToString(n);
      assert DropLast(r) == NatToString(n / 10);
    }
  }
}

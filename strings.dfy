/**
  The two pieces of Go's standard library that the validation engine relies on:
  `strings.Split(tag, ",")`, which cuts a `validate` tag into its entries, and
  the `%q` verb of `fmt`, which quotes a validator name in the "undefined
  validator" message. Each is given a partner (Join, Unquote) and a round-trip
  lemma, so that what the engine reports can be read back unambiguously.
*/
module Strings {

  import opened Wrappers

  /** The separator between the entries of a `validate` tag. */
  const Comma: char := ','

  /** Number of occurrences of `c` in `s`. */
  function Count(s: string, c: char): nat
  {
    if s == [] then 0 else (if s[0] == c then 1 else 0) + Count(s[1..], c)
  }

  /**
    strings.Split(s, ","): the pieces of `s` between commas, in order. Every
    comma is a boundary, so "" gives [""], "a," gives ["a", ""] and ",," gives
    three empty pieces.
  */
  function Split(s: string): (parts: seq<string>)
    ensures |parts| == Count(s, Comma) + 1
    ensures forall k :: 0 <= k < |parts| ==> Comma !in parts[k]
  {
    if s == [] then [""]
    else if s[0] == Comma then [""] + Split(s[1..])
    else
      var rest := Split(s[1..]);
      [[s[0]] + rest[0]] + rest[1..]
  }

  /** strings.Join(parts, ","), the inverse of Split. */
  function Join(parts: seq<string>): string
    requires |parts| >= 1
  {
    if |parts| == 1 then parts[0] else parts[0] + [Comma] + Join(parts[1..])
  }

  /** Joining the pieces of a split restores the original string. */
  lemma {:induction false} JoinSplit(s: string)
    ensures Join(Split(s)) == s
  {
    if s == [] {
    } else if s[0] == Comma {
      JoinSplit(s[1..]);
      assert s == [Comma] + s[1..];
    } else {
      var rest := Split(s[1..]);
      JoinSplit(s[1..]);
      if |rest| == 1 {
        assert s == [s[0]] + s[1..];
      } else {
        assert Join(rest) == rest[0] + [Comma] + Join(rest[1..]);
        assert ([[s[0]] + rest[0]] + rest[1..])[1..] == rest[1..];
        assert s == [s[0]] + s[1..];
      }
    }
  }

  /** Splitting a join of comma-free pieces gives the pieces back. */
  lemma {:induction false} SplitJoin(parts: seq<string>)
    requires |parts| >= 1
    requires forall k :: 0 <= k < |parts| ==> Comma !in parts[k]
    ensures Split(Join(parts)) == parts
  {
    if |parts| == 1 {
      SplitPiece(parts[0]);
    } else {
      SplitJoin(parts[1..]);
      SplitPieceThenComma(parts[0], Join(parts[1..]));
      assert parts == [parts[0]] + parts[1..];
    }
  }

  /** A comma-free string is a single entry. */
  lemma {:induction false} SplitPiece(p: string)
    requires Comma !in p
    ensures Split(p) == [p]
  {
    if p != [] {
      SplitPiece(p[1..]);
      assert p == [p[0]] + p[1..];
    }
  }

  /** A comma-free prefix followed by a comma becomes the first entry. */
  lemma {:induction false} SplitPieceThenComma(p: string, t: string)
    requires Comma !in p
    ensures Split(p + [Comma] + t) == [p] + Split(t)
  {
    if p == [] {
      assert p + [Comma] + t == [Comma] + t;
      assert ([Comma] + t)[1..] == t;
    } else {
      SplitPieceThenComma(p[1..], t);
      assert (p + [Comma] + t)[1..] == p[1..] + [Comma] + t;
      assert [p[0]] + p[1..] == p;
    }
  }

  /**
    Splitting two tags joined by a comma gives the entries of the first
    followed by the entries of the second.
  */
  lemma {:induction false} SplitConcat(t1: string, t2: string)
    ensures Split(t1 + [Comma] + t2) == Split(t1) + Split(t2)
  {
    var a := Split(t1);
    var b := Split(t2);
    JoinSplit(t1);
    JoinSplit(t2);
    JoinConcat(a, b);
    forall k | 0 <= k < |a + b|
      ensures Comma !in (a + b)[k]
    {
      if k < |a| { assert (a + b)[k] == a[k]; } else { assert (a + b)[k] == b[k - |a|]; }
    }
    SplitJoin(a + b);
  }

  lemma {:induction false} JoinConcat(a: seq<string>, b: seq<string>)
    requires |a| >= 1 && |b| >= 1
    ensures Join(a + b) == Join(a) + [Comma] + Join(b)
  {
    if |a| == 1 {
      assert (a + b)[1..] == b;
    } else {
      JoinConcat(a[1..], b);
      assert (a + b)[1..] == a[1..] + b;
    }
  }

  /** How `%q` (strconv.Quote) writes one character inside the quotes. */
  function EscapeChar(c: char): (e: string)
    ensures 1 <= |e| <= 2
  {
    if c == '"' then ['\\', '"']
    else if c == '\\' then ['\\', '\\']
    else if c == '\n' then ['\\', 'n']
    else if c == '\t' then ['\\', 't']
    else if c == '\r' then ['\\', 'r']
    else [c]
  }

  function Escape(s: string): string
  {
    if s == [] then [] else EscapeChar(s[0]) + Escape(s[1..])
  }

  /** The text `%q` produces for a string: escaped and double-quoted. */
  function Quote(s: string): (q: string)
    ensures |q| >= 2 && q[0] == '"' && q[|q| - 1] == '"'
  {
    ['"'] + Escape(s) + ['"']
  }

  /** Reads back the inside of a quoted string; None when it is not a valid escape sequence. */
  function Unescape(t: string): Option<string>
    decreases |t|
  {
    if t == [] then Some([])
    else if t[0] == '"' || t[0] == '\n' || t[0] == '\t' || t[0] == '\r' then None
    else if t[0] != '\\' then
      match Unescape(t[1..])
      case None => None
      case Some(rest) => Some([t[0]] + rest)
    else if |t| < 2 then None
    else
      var c :=
        if t[1] == '"' then Some('"')
        else if t[1] == '\\' then Some('\\')
        else if t[1] == 'n' then Some('\n')
        else if t[1] == 't' then Some('\t')
        else if t[1] == 'r' then Some('\r')
        else None;
      match c
      case None => None
      case Some(ch) =>
        match Unescape(t[2..])
        case None => None
        case Some(rest) => Some([ch] + rest)
  }

  /** The inverse of Quote. */
  function Unquote(q: string): Option<string>
  {
    if |q| >= 2 && q[0] == '"' && q[|q| - 1] == '"' then Unescape(q[1..|q| - 1]) else None
  }

  lemma {:induction false} UnescapeEscape(s: string)
    ensures Unescape(Escape(s)) == Some(s)
  {
    if s != [] {
      UnescapeEscape(s[1..]);
      UnescapeEscapeChar(s[0], Escape(s[1..]));
      assert s == [s[0]] + s[1..];
    }
  }

  /** Reading back one escaped character, followed by the rest of the text. */
  lemma UnescapeEscapeChar(c: char, t: string)
    ensures Unescape(EscapeChar(c) + t)
         == match Unescape(t) case None => None case Some(r) => Some([c] + r)
  {
    var e := EscapeChar(c);
    if |e| == 1 {
      assert (e + t)[1..] == t;
    } else {
      assert (e + t)[2..] == t;
    }
  }

  /** Characters that `%q` writes as they are. */
  predicate Plain(c: char)
  {
    c != '"' && c != '\\' && c != '\n' && c != '\t' && c != '\r'
  }

  /** A string of plain characters is quoted verbatim between double quotes. */
  lemma {:induction false} QuotePlain(s: string)
    requires forall c | c in s :: Plain(c)
    ensures Quote(s) == ['"'] + s + ['"']
  {
    EscapePlain(s);
  }

  lemma {:induction false} EscapePlain(s: string)
    requires forall c | c in s :: Plain(c)
    ensures Escape(s) == s
  {
    if s != [] {
      assert s[0] in s;
      assert forall c | c in s[1..] :: c in s;
      EscapePlain(s[1..]);
      assert s == [s[0]] + s[1..];
    }
  }

  /** A quoted name reads back as that name, so distinct names are quoted differently. */
  lemma UnquoteQuote(s: string)
    ensures Unquote(Quote(s)) == Some(s)
  {
    var q := Quote(s);
    assert q[1..|q| - 1] == Escape(s);
    UnescapeEscape(s);
  }
}

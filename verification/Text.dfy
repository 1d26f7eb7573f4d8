/** The text layer: decimal numerals, splitting and joining, dotted OIDs. */
module Text {

  datatype Option<+T> = None | Some(value: T)

  // ----- numerals

  predicate IsDigit(c: char) { '0' <= c <= '9' }

  function DigitChar(d: nat): (c: char)
    requires d < 10
    ensures IsDigit(c) && c as int - '0' as int == d
  {
    ('0' as int + d) as char
  }

  function PrintNat(n: nat): (s: string)
    ensures s != [] && forall i :: 0 <= i < |s| ==> IsDigit(s[i])
  {
    if n < 10 then [DigitChar(n)] else PrintNat(n / 10) + [DigitChar(n % 10)]
  }

  /** `str(n)` for an integer. */
  function PrintInt(n: int): string
  {
    if n < 0 then "-" + PrintNat(-n) else PrintNat(n)
  }

  /** Decimal digits with single underscores between them, as Python numerals allow. */
  function DigitsValue(s: string): Option<nat>
  {
    if s == [] || !IsDigit(s[|s| - 1]) then None else
      var d := s[|s| - 1] as int - '0' as int;
      if |s| == 1 then Some(d) else
        var front := if s[|s| - 2] == '_' then s[..|s| - 2] else s[..|s| - 1];
        match DigitsValue(front)
        case None => None
        case Some(v) => Some(10 * v + d)
  }

  /** What `str.strip` and `int` treat as white space. */
  predicate IsSpace(c: char)
  {
    || '\t' <= c <= '\r' || '\U{1C}' <= c <= ' ' || c == '\U{85}' || c == '\U{A0}' || c == '\U{1680}'
    || '\U{2000}' <= c <= '\U{200A}' || c == '\U{2028}' || c == '\U{2029}'
    || c == '\U{202F}' || c == '\U{205F}' || c == '\U{3000}'
  }

  const WHITESPACE: set<char> := set c: char | IsSpace(c)

  /** `s.strip(chars)`. */
  function Strip(s: string, chars: set<char>): string
    decreases |s|
  {
    if s == [] then s
    else if s[0] in chars then Strip(s[1..], chars)
    else if s[|s| - 1] in chars then Strip(s[..|s| - 1], chars)
    else s
  }

  lemma StripNothing(s: string, chars: set<char>)
    requires s != [] ==> s[0] !in chars && s[|s| - 1] !in chars
    ensures Strip(s, chars) == s
  {
  }

  lemma StripFront(c: char, s: string, chars: set<char>)
    requires c in chars
    ensures Strip([c] + s, chars) == Strip(s, chars)
  {
    assert ([c] + s)[1..] == s;
  }

  lemma {:induction false} StripBack(s: string, b: string, chars: set<char>)
    requires (s != [] ==> s[0] !in chars && s[|s| - 1] !in chars) && forall i :: 0 <= i < |b| ==> b[i] in chars
    ensures Strip(s + b, chars) == s
    decreases |b|
  {
    if b == [] {
      assert s + b == s;
      StripNothing(s, chars);
    } else if s == [] {
      assert s + b == b && (s + b)[1..] == s + b[1..];
      StripBack(s, b[1..], chars);
    } else {
      var n := |b| - 1;
      assert (s + b)[..|s + b| - 1] == s + b[..n];
      StripBack(s, b[..n], chars);
    }
  }

  /** Stripping takes everything off both ends and nothing from the middle. */
  lemma {:induction false} StripPadded(a: string, s: string, b: string, chars: set<char>)
    requires s != [] ==> s[0] !in chars && s[|s| - 1] !in chars
    requires (forall i :: 0 <= i < |a| ==> a[i] in chars) && (forall i :: 0 <= i < |b| ==> b[i] in chars)
    ensures Strip(a + s + b, chars) == s
    decreases |a|
  {
    if a == [] {
      assert a + s + b == s + b;
      StripBack(s, b, chars);
    } else {
      assert (a + s + b)[1..] == a[1..] + s + b;
      StripPadded(a[1..], s, b, chars);
    }
  }

  /** `int(s)` on ASCII text; None stands for ValueError. */
  function ParseInt(s: string): Option<int>
  {
    var t := Strip(s, WHITESPACE);
    if t == [] then None
    else
      var magnitude := DigitsValue(if t[0] == '-' || t[0] == '+' then t[1..] else t);
      if magnitude.None? then None else
        var n: int := magnitude.value;
        Some(if t[0] == '-' then -n else n)
  }

  lemma {:induction false} DigitsValuePrintNat(n: nat)
    ensures DigitsValue(PrintNat(n)) == Some(n)
  {
    if n >= 10 {
      DigitsValuePrintNat(n / 10);
      var s := PrintNat(n);
      assert s[..|s| - 1] == PrintNat(n / 10);
      assert s[|s| - 2] == PrintNat(n / 10)[|PrintNat(n / 10)| - 1];
    }
  }

  /** Reading a printed integer gives the integer back. */
  lemma ParsePrintInt(n: int)
    ensures ParseInt(PrintInt(n)) == Some(n)
  {
    hide DigitsValue, PrintNat;
    if n < 0 {
      DigitsValuePrintNat(-n);
      assert PrintInt(n)[1..] == PrintNat(-n);
      assert PrintInt(n)[|PrintInt(n)| - 1] == PrintNat(-n)[|PrintNat(-n)| - 1];
    } else {
      DigitsValuePrintNat(n);
    }
  }

  // ----- splitting

  function Join(parts: seq<string>, sep: char): string
  {
    if parts == [] then []
    else if |parts| == 1 then parts[0]
    else parts[0] + [sep] + Join(parts[1..], sep)
  }

  function IndexOf(s: string, c: char, from: nat): (i: nat)
    requires from <= |s|
    ensures from <= i <= |s|
    ensures forall j :: from <= j < i ==> s[j] != c
    ensures i < |s| ==> s[i] == c
    decreases |s| - from
  {
    if from == |s| || s[from] == c then from else IndexOf(s, c, from + 1)
  }

  /** `s.split(sep)` for a one-character separator. */
  function Split(s: string, sep: char): (parts: seq<string>)
    ensures parts != []
    decreases |s|
  {
    var i := IndexOf(s, sep, 0);
    if i == |s| then [s] else [s[..i]] + Split(s[i + 1..], sep)
  }

  lemma SplitFirst(p: string, rest: string, sep: char)
    requires sep !in p
    ensures Split(p + [sep] + rest, sep) == [p] + Split(rest, sep)
  {
    var s := p + [sep] + rest;
    var i := IndexOf(s, sep, 0);
    assert s[|p|] == sep;
    assert forall j :: 0 <= j < |p| ==> s[j] == p[j];
    assert i == |p|;
    assert s[..i] == p && s[i + 1..] == rest;
  }

  lemma SplitNone(p: string, sep: char)
    requires sep !in p
    ensures Split(p, sep) == [p]
  {
  }

  lemma SplitTwo(p: string, rest: string, sep: char)
    requires sep !in p && sep !in rest
    ensures Split(p + [sep] + rest, sep) == [p, rest]
  {
    hide Split;
    SplitFirst(p, rest, sep);
    SplitNone(rest, sep);
  }

  lemma {:induction false} SplitJoin(parts: seq<string>, sep: char)
    requires parts != [] && forall i :: 0 <= i < |parts| ==> sep !in parts[i]
    ensures Split(Join(parts, sep), sep) == parts
    decreases |parts|
  {
    if |parts| > 1 {
      SplitJoin(parts[1..], sep);
      SplitFirst(parts[0], Join(parts[1..], sep), sep);
    }
  }

  // ----- dotted OIDs

  function PrintParts(t: seq<nat>): (parts: seq<string>)
    ensures |parts| == |t| && forall i :: 0 <= i < |t| ==> parts[i] == PrintNat(t[i])
  {
    seq(|t|, i requires 0 <= i < |t| => PrintNat(t[i]))
  }

  /** `_tuple_to_oid`. */
  function PrintOid(t: seq<nat>): string
  {
    Join(PrintParts(t), '.')
  }

  function ParseParts(parts: seq<string>, i: nat): Option<seq<int>>
    requires i <= |parts|
    decreases |parts| - i
  {
    if i == |parts| then Some([])
    else match (ParseInt(parts[i]), ParseParts(parts, i + 1))
      case (Some(n), Some(rest)) => Some([n] + rest)
      case (_, _) => None
  }

  /** `_oid_to_tuple`; None stands for ValueError. */
  function ParseOid(s: string): Option<seq<int>>
  {
    ParseParts(Split(Strip(s, {'.'}), '.'), 0)
  }

  /** `int(full_oid.rsplit(".", 1)[-1])`. */
  function LastComponent(s: string): Option<int>
  {
    var parts := Split(s, '.');
    ParseInt(parts[|parts| - 1])
  }

  lemma {:induction false} ParsePartsOfPrint(t: seq<nat>, i: nat)
    requires i <= |t|
    ensures ParseParts(PrintParts(t), i) == Some(t[i..])
    decreases |t| - i
  {
    if i < |t| {
      ParsePartsOfPrint(t, i + 1);
      ParsePrintInt(t[i]);
      assert t[i..] == [t[i]] + t[i + 1..];
    } else {
      assert t[i..] == [];
    }
  }

  lemma {:induction false} JoinEnds(parts: seq<string>, sep: char)
    requires parts != [] && forall i :: 0 <= i < |parts| ==> parts[i] != []
    ensures var s := Join(parts, sep);
            s != [] && s[0] == parts[0][0]
            && s[|s| - 1] == parts[|parts| - 1][|parts[|parts| - 1]| - 1]
    decreases |parts|
  {
    if |parts| > 1 {
      JoinEnds(parts[1..], sep);
    }
  }

  lemma SplitPrintOid(t: seq<nat>)
    requires t != []
    ensures Split(PrintOid(t), '.') == PrintParts(t)
    ensures Strip(PrintOid(t), {'.'}) == PrintOid(t)
  {
    SplitJoin(PrintParts(t), '.');
    JoinEnds(PrintParts(t), '.');
  }

  /** Printing then parsing an OID is the identity exactly on the non-empty ones: "" is not a number. */
  lemma ParsePrintOid(t: seq<nat>)
    ensures ParseOid(PrintOid(t)) == Some(t) <==> t != []
    ensures t == [] ==> ParseOid(PrintOid(t)) == None
  {
    if t != [] {
      SplitPrintOid(t);
      ParsePartsOfPrint(t, 0);
      assert t[0..] == t;
    } else {
      assert PrintOid(t) == [];
      assert Split([], '.') == [[]];
      assert ParseInt([]) == None;
    }
  }

  /** Distinct OIDs have distinct texts, so comparing texts compares OIDs. */
  lemma PrintOidInjective(t: seq<nat>, u: seq<nat>)
    requires t != [] && u != []
    ensures PrintOid(t) == PrintOid(u) <==> t == u
  {
    ParsePrintOid(t);
    ParsePrintOid(u);
  }

  /** The poller reads the interface index back from `base.idx`. */
  lemma LastComponentInverts(base: seq<nat>, idx: nat)
    ensures LastComponent(PrintOid(base + [idx])) == Some(idx)
  {
    var t := base + [idx];
    SplitPrintOid(t);
    assert PrintParts(t)[|t| - 1] == PrintNat(idx);
    ParsePrintInt(idx);
  }

  lemma PrintOidOfChild(base: seq<nat>, idx: nat)
    requires base != []
    ensures PrintOid(base + [idx]) == PrintOid(base) + "." + PrintNat(idx)
  {
    assert PrintParts(base + [idx]) == PrintParts(base) + [PrintNat(idx)];
    JoinSnoc(PrintParts(base), PrintNat(idx), '.');
  }

  lemma {:induction false} JoinSnoc(parts: seq<string>, last: string, sep: char)
    requires parts != []
    ensures Join(parts + [last], sep) == Join(parts, sep) + [sep] + last
    decreases |parts|
  {
    if |parts| == 1 {
      assert (parts + [last])[1..] == [last];
    } else {
      JoinSnoc(parts[1..], last, sep);
      assert (parts + [last])[1..] == parts[1..] + [last];
    }
  }

  // ----- substrings

  predicate OccursAt(s: string, p: string, i: nat)
  {
    i + |p| <= |s| && s[i..i + |p|] == p
  }

  /** `p in s`. */
  predicate Contains(s: string, p: string)
  {
    exists i :: 0 <= i <= |s| && OccursAt(s, p, i)
  }
}

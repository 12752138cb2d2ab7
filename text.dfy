/** Option and Result, used for the values the program may lack and for the
    errors it throws. */
module Wrappers {
  datatype Option<+T> = None | Some(value: T)

  datatype Result<+R, +E> = Success(value: R) | Failure(error: E)
}

/** The string primitives of JavaScript that the inventory code relies on:
    `trim`, `split`, `join`, `replace(/"/g, ...)`, `toLowerCase`, `includes`,
    number-to-string conversion and the integer part of `parseFloat`. */
module Text {
  import opened Wrappers

  /** The characters `String.prototype.trim` removes: white space and line
      terminators as ECMAScript defines them. */
  predicate IsWhitespace(c: char) {
    c == ' ' || c == '\t' || c == '\n' || c == '\r' || c == '\U{B}' || c == '\U{C}'
    || c == '\U{A0}' || c == '\U{1680}' || ('\U{2000}' <= c <= '\U{200A}')
    || c == '\U{2028}' || c == '\U{2029}' || c == '\U{202F}' || c == '\U{205F}'
    || c == '\U{3000}' || c == '\U{FEFF}'
  }

  predicate IsDigit(c: char) {
    '0' <= c <= '9'
  }

  /** Drops the leading white space: the result is the longest suffix that
      does not start with white space. */
  function TrimStart(s: string): (r: string)
    ensures |r| <= |s| && r == s[|s| - |r|..]
    ensures forall k :: 0 <= k < |s| - |r| ==> IsWhitespace(s[k])
    ensures r != [] ==> !IsWhitespace(r[0])
  {
    if s != [] && IsWhitespace(s[0]) then TrimStart(s[1..]) else s
  }

  /** Drops the trailing white space: the result is the longest prefix that
      does not end with white space. */
  function TrimEnd(s: string): (r: string)
    ensures |r| <= |s| && r == s[..|r|]
    ensures forall k :: |r| <= k < |s| ==> IsWhitespace(s[k])
    ensures r != [] ==> !IsWhitespace(r[|r| - 1])
  {
    if s != [] && IsWhitespace(s[|s| - 1]) then TrimEnd(s[..|s| - 1]) else s
  }

  /** `s.trim()` */
  function Trim(s: string): string {
    TrimEnd(TrimStart(s))
  }

  /** A string is blank (`!s.trim()` holds) exactly when it is all white space. */
  lemma BlankIffAllWhitespace(s: string)
    ensures Trim(s) == [] <==> forall k :: 0 <= k < |s| ==> IsWhitespace(s[k])
  {
    var t := TrimStart(s);
    var r := Trim(s);
    if r == [] {
      assert t == [];
      assert forall k :: 0 <= k < |s| ==> IsWhitespace(s[k]);
    } else {
      assert r[0] == t[0];
      assert t[0] == s[|s| - |t|];
      assert !IsWhitespace(s[|s| - |t|]);
    }
  }

  /** Trimming leaves alone a string that neither starts nor ends with white space. */
  lemma TrimUnchanged(s: string)
    requires s == [] || (!IsWhitespace(s[0]) && !IsWhitespace(s[|s| - 1]))
    ensures Trim(s) == s
  {
  }

  /** The string is not empty and does not end with white space. */
  predicate EndsClean(s: string) {
    s != [] && !IsWhitespace(s[|s| - 1])
  }

  /** `parts.join(sep)` */
  function Join(parts: seq<string>, sep: char): string {
    if |parts| == 0 then ""
    else if |parts| == 1 then parts[0]
    else parts[0] + [sep] + Join(parts[1..], sep)
  }

  /** Prepending a character to the first part prepends it to the joined string. */
  lemma JoinConsFirst(c: char, parts: seq<string>, sep: char)
    requires |parts| >= 1
    ensures Join([[c] + parts[0]] + parts[1..], sep) == [c] + Join(parts, sep)
  {
    var ps := [[c] + parts[0]] + parts[1..];
    assert ps[1..] == parts[1..];
  }

  /** A joined string starts with its first part. */
  lemma JoinStartsWithFirst(parts: seq<string>, sep: char)
    requires |parts| >= 1
    ensures |parts[0]| <= |Join(parts, sep)| && Join(parts, sep)[..|parts[0]|] == parts[0]
  {
  }

  /** A character that is neither the separator nor in any part is not in the joined string. */
  lemma {:induction false} NotInJoin(parts: seq<string>, sep: char, x: char)
    requires x != sep
    requires forall k :: 0 <= k < |parts| ==> x !in parts[k]
    ensures x !in Join(parts, sep)
  {
    if |parts| > 1 {
      NotInJoin(parts[1..], sep, x);
    }
  }

  /** A joined string of two or more parts ends with the separator and the last part. */
  lemma {:induction false} JoinLast(parts: seq<string>, sep: char)
    requires |parts| >= 2
    ensures Join(parts, sep) == Join(parts[..|parts| - 1], sep) + [sep] + parts[|parts| - 1]
  {
    if |parts| > 2 {
      JoinLast(parts[1..], sep);
      assert parts[1..][..|parts| - 2] == parts[..|parts| - 1][1..];
    }
  }

  /** A joined string whose last part is not empty ends with that part's last character. */
  lemma JoinLastChar(parts: seq<string>, sep: char)
    requires |parts| >= 1 && parts[|parts| - 1] != []
    ensures var s := Join(parts, sep); var last := parts[|parts| - 1];
      s != [] && s[|s| - 1] == last[|last| - 1]
  {
    if |parts| >= 2 {
      JoinLast(parts, sep);
    }
  }

  /** A joined string whose first part is not empty starts with that part's first character. */
  lemma JoinFirstChar(parts: seq<string>, sep: char)
    requires |parts| >= 1 && parts[0] != []
    ensures Join(parts, sep) != [] && Join(parts, sep)[0] == parts[0][0]
  {
  }

  /** Joining a part in front of at least one more puts a separator after it. */
  lemma JoinCons(x: string, parts: seq<string>, sep: char)
    requires |parts| >= 1
    ensures Join([x] + parts, sep) == x + [sep] + Join(parts, sep)
  {
    assert ([x] + parts)[0] == x && ([x] + parts)[1..] == parts;
  }

  /** A part made of two pieces around the separator joins like the two pieces. */
  lemma JoinRegroup(x: string, y: string, rest: seq<string>, sep: char)
    requires |rest| >= 1
    ensures Join([x + [sep] + y] + rest, sep) == Join([x, y] + rest, sep)
  {
    assert [x, y] + rest == [x] + ([y] + rest);
    JoinCons(x + [sep] + y, rest, sep);
    JoinCons(x, [y] + rest, sep);
    JoinCons(y, rest, sep);
    SeparatedRegroup(x, y, Join(rest, sep), sep);
  }

  /** Three pieces with a separator after the first two, grouped either way. */
  lemma SeparatedRegroup(x: string, y: string, z: string, sep: char)
    ensures (x + [sep] + y) + [sep] + z == x + [sep] + (y + [sep] + z)
  {
  }

  /** The same regrouping behind a first part. */
  lemma JoinRegroupSecond(first: string, x: string, y: string, rest: seq<string>, sep: char)
    requires |rest| >= 1
    ensures Join([first, x + [sep] + y] + rest, sep) == Join([first, x, y] + rest, sep)
  {
    assert [first, x + [sep] + y] + rest == [first] + ([x + [sep] + y] + rest);
    assert [first, x, y] + rest == [first] + ([x, y] + rest);
    JoinCons(first, [x + [sep] + y] + rest, sep);
    JoinRegroup(x, y, rest, sep);
    JoinCons(first, [x, y] + rest, sep);
  }

  /** `s.split(sep)` for a one-character separator: the pieces between the
      separators, so there is always at least one piece and no piece holds
      the separator; JoinSplit adds that joining the pieces gives back `s`. */
  function Split(s: string, sep: char): (r: seq<string>)
    ensures |r| >= 1
    ensures forall k :: 0 <= k < |r| ==> sep !in r[k]
  {
    if s == [] then [""]
    else
      var rest := Split(s[1..], sep);
      if s[0] == sep then [""] + rest
      else [[s[0]] + rest[0]] + rest[1..]
  }

  /** Joining the pieces of a split with the separator gives back the string. */
  lemma {:induction false} JoinSplit(s: string, sep: char)
    ensures Join(Split(s, sep), sep) == s
  {
    if s != [] {
      var rest := Split(s[1..], sep);
      JoinSplit(s[1..], sep);
      if s[0] == sep {
        assert ([""] + rest)[1..] == rest;
      } else {
        JoinConsFirst(s[0], rest, sep);
      }
      assert [s[0]] + s[1..] == s;
    }
  }

  /** Splitting a joined sequence of separator-free parts gives the parts back. */
  lemma {:induction false} SplitJoin(parts: seq<string>, sep: char)
    requires |parts| >= 1
    requires forall k :: 0 <= k < |parts| ==> sep !in parts[k]
    ensures Split(Join(parts, sep), sep) == parts
    decreases |parts|, |parts[0]|
  {
    var first := parts[0];
    if first == [] {
      if |parts| > 1 {
        SplitJoin(parts[1..], sep);
        var s := Join(parts, sep);
        assert s == [sep] + Join(parts[1..], sep);
        assert s[1..] == Join(parts[1..], sep);
        assert parts == [""] + parts[1..];
      }
    } else {
      var tail := [first[1..]] + parts[1..];
      assert tail[1..] == parts[1..];
      assert parts[1..] == tail[1..];
      forall k | 0 <= k < |tail| ensures sep !in tail[k] {
        if k == 0 { assert forall x :: x in first[1..] ==> x in first; }
        else { assert tail[k] == parts[k]; }
      }
      SplitJoin(tail, sep);
      JoinConsFirst(first[0], tail, sep);
      assert [first[0]] + tail[0] == first;
      assert [[first[0]] + tail[0]] + tail[1..] == parts;
      var s := Join(parts, sep);
      assert s == [first[0]] + Join(tail, sep);
      assert s[0] == first[0] && s[1..] == Join(tail, sep);
    }
  }

  /** Splitting a first line and further lines, none holding the separator,
      joined by the separator, gives them back. */
  lemma SplitJoinLines(first: string, rest: seq<string>, sep: char)
    requires sep !in first
    requires forall k :: 0 <= k < |rest| ==> sep !in rest[k]
    ensures Split(Join([first] + rest, sep), sep) == [first] + rest
  {
    var parts := [first] + rest;
    assert forall k :: 1 <= k < |parts| ==> parts[k] == rest[k - 1];
    SplitJoin(parts, sep);
  }

  /** A first line and further lines joined by a separator start with the
      first line's first character and end like the last line. */
  lemma JoinLinesEdges(first: string, rest: seq<string>, sep: char)
    requires EndsClean(first)
    requires rest != [] ==> EndsClean(rest[|rest| - 1])
    ensures var s := Join([first] + rest, sep);
      EndsClean(s) && s[0] == first[0]
  {
    var parts := [first] + rest;
    assert parts[0] == first && parts[|parts| - 1] == if rest == [] then first else rest[|rest| - 1];
    JoinFirstChar(parts, sep);
    JoinLastChar(parts, sep);
  }

  /** `s.replace(/c/g, '')`: every occurrence of `c` removed, nothing else changed. */
  function RemoveChar(s: string, c: char): (r: string)
    ensures c !in r
    ensures c !in s ==> r == s
    ensures forall x :: x != c ==> (x in r <==> x in s)
  {
    if s == [] then ""
    else (if s[0] == c then "" else [s[0]]) + RemoveChar(s[1..], c)
  }

  /** Removing a character distributes over concatenation. */
  lemma {:induction false} RemoveCharAppend(a: string, b: string, c: char)
    ensures RemoveChar(a + b, c) == RemoveChar(a, c) + RemoveChar(b, c)
  {
    if a != [] {
      var x, tail := a[0], a[1..];
      assert a == [x] + tail && a + b == [x] + (tail + b);
      RemoveCharCons(x, tail, c);
      RemoveCharCons(x, tail + b, c);
      RemoveCharAppend(tail, b, c);
      ConcatAssoc(if x == c then "" else [x], RemoveChar(tail, c), RemoveChar(b, c));
    } else {
      assert a + b == b;
    }
  }

  lemma ConcatAssoc(u: string, v: string, w: string)
    ensures u + (v + w) == (u + v) + w
  {
  }

  /** Removing a character from a sequence built by prepending one. */
  lemma RemoveCharCons(x: char, s: string, c: char)
    ensures RemoveChar([x] + s, c) == (if x == c then "" else [x]) + RemoveChar(s, c)
  {
    assert ([x] + s)[0] == x && ([x] + s)[1..] == s;
  }

  /** `s.replace(/"/g, '""')`: every double quote doubled. Removing all quotes
      afterwards gives the same as removing them from `s`, and no other
      character is added or lost. */
  function DoubleQuotes(s: string): (r: string)
    ensures '"' !in s ==> r == s
    ensures forall x :: x != '"' ==> (x in r <==> x in s)
    ensures RemoveChar(r, '"') == RemoveChar(s, '"')
  {
    if s == [] then ""
    else
      var head := if s[0] == '"' then "\"\"" else [s[0]];
      var rest := DoubleQuotes(s[1..]);
      assert s == [s[0]] + s[1..];
      DoubleQuotesStep(s[0], s[1..], rest);
      head + rest
  }

  /** The inductive step of DoubleQuotes: its contract carries over from the
      tail to the text with one more character in front. */
  lemma DoubleQuotesStep(x: char, tail: string, rest: string)
    requires '"' !in tail ==> rest == tail
    requires forall y :: y != '"' ==> (y in rest <==> y in tail)
    requires RemoveChar(rest, '"') == RemoveChar(tail, '"')
    ensures var s, r := [x] + tail, (if x == '"' then "\"\"" else [x]) + rest;
      && ('"' !in s ==> r == s)
      && (forall y :: y != '"' ==> (y in r <==> y in s))
      && RemoveChar(r, '"') == RemoveChar(s, '"')
  {
    var head := if x == '"' then "\"\"" else [x];
    RemoveCharAppend(head, rest, '"');
    assert RemoveChar(head, '"') == if x == '"' then "" else [x] by {
      RemoveCharCons(x, head[1..], '"');
      assert head == [x] + head[1..];
      if x == '"' {
        RemoveCharCons('"', "", '"');
        assert head[1..] == ['"'] + "";
      } else {
        assert head[1..] == "";
      }
    }
    RemoveCharCons(x, tail, '"');
  }

  /** Doubling the quotes of a concatenation doubles them in each part. */
  lemma {:induction false} DoubleQuotesAppend(a: string, b: string)
    ensures DoubleQuotes(a + b) == DoubleQuotes(a) + DoubleQuotes(b)
  {
    if a == [] {
      assert a + b == b;
    } else {
      var x, tail := a[0], a[1..];
      assert a == [x] + tail && a + b == [x] + (tail + b);
      DoubleQuotesCons(x, tail);
      DoubleQuotesCons(x, tail + b);
      DoubleQuotesAppend(tail, b);
      ConcatAssoc(if x == '"' then "\"\"" else [x], DoubleQuotes(tail), DoubleQuotes(b));
    }
  }

  /** Doubling the quotes of a sequence built by prepending a character. */
  lemma DoubleQuotesCons(x: char, s: string)
    ensures DoubleQuotes([x] + s) == (if x == '"' then "\"\"" else [x]) + DoubleQuotes(s)
  {
    assert ([x] + s)[0] == x && ([x] + s)[1..] == s;
  }

  /** A double quote becomes two; every other character stays as it is. */
  lemma DoubleQuotesChar(c: char)
    ensures DoubleQuotes([c]) == if c == '"' then "\"\"" else [c]
  {
    assert [c][1..] == [];
  }

  /** The inside of a quoted CSV field read back as the CSV convention has it:
      `""` stands for one double quote, and a lone double quote makes the
      field invalid. */
  function Undouble(s: string): Option<string> {
    if s == [] then Some("")
    else if s[0] != '"' then
      match Undouble(s[1..])
      case Some(t) => Some([s[0]] + t)
      case None => None
    else if |s| >= 2 && s[1] == '"' then
      match Undouble(s[2..])
      case Some(t) => Some("\"" + t)
      case None => None
    else None
  }

  /** Reading a quote-doubled text back as CSV gives the original text. */
  lemma {:induction false} UndoubleDoubleQuotes(s: string)
    ensures Undouble(DoubleQuotes(s)) == Some(s)
  {
    if s != [] {
      var d := DoubleQuotes(s);
      var rest := DoubleQuotes(s[1..]);
      UndoubleDoubleQuotes(s[1..]);
      if s[0] == '"' {
        assert d == "\"\"" + rest;
        assert d[0] == '"' && d[1] == '"' && d[2..] == rest;
      } else {
        assert d == [s[0]] + rest;
        assert d[0] == s[0] && d[1..] == rest;
      }
      assert s == [s[0]] + s[1..];
    }
  }

  /** The lower-case form `toLowerCase` gives for the characters of Portuguese
      text: the ASCII capitals and the Latin-1 capitals (U+00C0 to U+00DE,
      except the multiplication sign). */
  function LowerChar(c: char): char {
    if 'A' <= c <= 'Z' || ('\U{C0}' <= c <= '\U{DE}' && c != '\U{D7}') then
      (c as int + 32) as char
    else c
  }

  /** Lowering a character twice is the same as lowering it once. */
  lemma LowerCharIdempotent(c: char)
    ensures LowerChar(LowerChar(c)) == LowerChar(c)
  {
  }

  /** `s.toLowerCase()` */
  function ToLower(s: string): (r: string)
    ensures |r| == |s|
    ensures forall k :: 0 <= k < |s| ==> r[k] == LowerChar(s[k])
  {
    if s == [] then "" else [LowerChar(s[0])] + ToLower(s[1..])
  }

  /** Lower-casing is idempotent, so a search term that is already lower case
      matches the same names as any of its capitalisations. */
  lemma ToLowerIdempotent(s: string)
    ensures ToLower(ToLower(s)) == ToLower(s)
  {
    forall k | 0 <= k < |s| ensures ToLower(ToLower(s))[k] == ToLower(s)[k] {
      LowerCharIdempotent(s[k]);
    }
  }

  /** `s.includes(t)`: `t` occurs in `s` at some position. */
  predicate Contains(s: string, t: string) {
    exists i :: 0 <= i <= |s| && t <= s[i..]
  }

  /** Every string contains the empty string. */
  lemma ContainsEmpty(s: string)
    ensures Contains(s, "")
  {
    assert "" <= s[0..];
  }

  /** The character for a decimal digit. */
  function DigitChar(d: nat): (c: char)
    requires d < 10
    ensures IsDigit(c)
  {
    ('0' as int + d) as char
  }

  /** The value of a decimal digit character. */
  function DigitValue(c: char): (d: nat)
    requires IsDigit(c)
    ensures d < 10 && DigitChar(d) == c
  {
    c as int - '0' as int
  }

  /** The decimal representation of a natural number, without leading zeros. */
  function NatToString(n: nat): (r: string)
    ensures |r| >= 1
    ensures forall k :: 0 <= k < |r| ==> IsDigit(r[k])
    ensures n > 0 ==> r[0] != '0'
    ensures n == 0 ==> r == "0"
  {
    if n < 10 then [DigitChar(n)] else NatToString(n / 10) + [DigitChar(n % 10)]
  }

  /** `String(n)` for an integer `n`: a minus sign exactly for a negative
      number, then the digits without leading zeros. */
  function IntToString(n: int): (r: string)
    ensures |r| >= 1 && IsDigit(r[|r| - 1])
    ensures forall c :: c in r ==> c == '-' || IsDigit(c)
    ensures r[0] == '-' <==> n < 0
    ensures forall k :: (if n < 0 then 1 else 0) <= k < |r| ==> IsDigit(r[k])
    ensures var digits := if n < 0 then r[1..] else r;
      digits != [] && (digits[0] == '0' ==> digits == "0")
  {
    if n < 0 then "-" + NatToString(-n) else NatToString(n)
  }

  /** The number of leading decimal digits of `s`. */
  function LeadingDigits(s: string): (n: nat)
    ensures n <= |s|
    ensures forall k :: 0 <= k < n ==> IsDigit(s[k])
    ensures n < |s| ==> !IsDigit(s[n])
  {
    if s != [] && IsDigit(s[0]) then 1 + LeadingDigits(s[1..]) else 0
  }

  /** The value of a string of decimal digits. */
  function DigitsToNat(ds: string): nat
    requires forall k :: 0 <= k < |ds| ==> IsDigit(ds[k])
  {
    if ds == [] then 0 else DigitsToNat(ds[..|ds| - 1]) * 10 + DigitValue(ds[|ds| - 1])
  }

  /** The value of the leading run of digits of `u`, 0 when there is none. */
  function ParseUnsigned(u: string): nat {
    var n := LeadingDigits(u);
    if n == 0 then 0 else DigitsToNat(u[..n])
  }

  /** The integer part of `parseFloat(s) || 0`: after leading white space, an
      optional sign and then the longest run of digits; no digits gives 0. */
  function ParseInteger(s: string): int {
    var t := TrimStart(s);
    if t != [] && t[0] == '-' then -(ParseUnsigned(t[1..]) as int)
    else if t != [] && t[0] == '+' then ParseUnsigned(t[1..])
    else ParseUnsigned(t)
  }

  /** Reading back the digits of a natural number gives the number. */
  lemma {:induction false} DigitsOfNat(n: nat)
    ensures DigitsToNat(NatToString(n)) == n
  {
    var s := NatToString(n);
    if n >= 10 {
      DigitsOfNat(n / 10);
      assert s[..|s| - 1] == NatToString(n / 10);
    }
  }

  /** Reading back the leading digits of a natural number's decimal form gives the number. */
  lemma ParseUnsignedOfString(m: nat)
    ensures ParseUnsigned(NatToString(m)) == m
  {
    var ds := NatToString(m);
    DigitsOfNat(m);
    assert LeadingDigits(ds) == |ds|;
    assert ds[..|ds|] == ds;
  }

  /** Parsing the decimal form of an integer gives the integer back. */
  lemma ParseIntegerOfString(n: int)
    ensures ParseInteger(IntToString(n)) == n
  {
    var s := IntToString(n);
    NumberUntrimmed(n);
    if n < 0 {
      ParseUnsignedOfString(-n);
      assert s[1..] == NatToString(-n);
    } else {
      ParseUnsignedOfString(n);
    }
  }

  /** The decimal form of an integer starts with a sign or a digit, which
      trimming leaves alone. */
  lemma NumberUntrimmed(n: int)
    ensures TrimStart(IntToString(n)) == IntToString(n)
  {
    var s := IntToString(n);
    assert s[0] == '-' || IsDigit(s[0]);
  }
}

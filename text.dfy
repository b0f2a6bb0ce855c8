/** The few pieces of Python string behaviour the target bookkeeping relies on:
    `str.split(sep)`, `str.split()` (whitespace split), iterating over the lines
    of a text file, `str(n)` for an integer and `int(token)`. */
module Text {

  datatype Option<+T> = None | Some(value: T)

  /** The ASCII whitespace characters Python's `str.split()` and `str.strip()` skip. */
  predicate IsSpace(c: char)
  {
    c == ' ' || c == '\t' || c == '\n' || c == '\r' || c == '\U{000B}' || c == '\U{000C}'
  }

  /** A word as `str.split()` yields it: non-empty, without whitespace. */
  predicate IsToken(s: string)
  {
    |s| > 0 && forall i :: 0 <= i < |s| ==> !IsSpace(s[i])
  }

  predicate NoSep(s: string, sep: char)
  {
    forall i :: 0 <= i < |s| ==> s[i] != sep
  }

  // ---------------------------------------------------------------------------
  // str.split(sep) and its inverse str.join

  /** `s.split(sep)` for a one-character separator: always at least one piece,
      an empty piece before or after every separator. */
  function Split(s: string, sep: char): (r: seq<string>)
    ensures |r| >= 1
    ensures forall i :: 0 <= i < |r| ==> NoSep(r[i], sep)
  {
    if s == [] then [""]
    else if s[0] == sep then [""] + Split(s[1..], sep)
    else
      var rest := Split(s[1..], sep);
      [[s[0]] + rest[0]] + rest[1..]
  }

  /** `sep.join(parts)`. */
  function Join(parts: seq<string>, sep: char): string
    requires |parts| >= 1
  {
    if |parts| == 1 then parts[0] else parts[0] + [sep] + Join(parts[1..], sep)
  }

  /** Joining the pieces of a split gives back the string. */
  lemma {:induction false} JoinSplit(s: string, sep: char)
    ensures Join(Split(s, sep), sep) == s
  {
    if s == [] {
    } else if s[0] == sep {
      JoinSplit(s[1..], sep);
      var rest := Split(s[1..], sep);
      assert Split(s, sep) == [""] + rest;
      assert ([""] + rest)[1..] == rest;
    } else {
      JoinSplit(s[1..], sep);
      var rest := Split(s[1..], sep);
      var r := Split(s, sep);
      assert r == [[s[0]] + rest[0]] + rest[1..];
      if |rest| == 1 {
        assert r == [[s[0]] + rest[0]];
      } else {
        assert r[1..] == rest[1..];
        assert Join(rest, sep) == rest[0] + [sep] + Join(rest[1..], sep);
      }
    }
  }

  /** Splitting `a + sep + t` where `a` holds no separator peels off `a`. */
  lemma {:induction false} SplitCons(a: string, sep: char, t: string)
    requires NoSep(a, sep)
    ensures Split(a + [sep] + t, sep) == [a] + Split(t, sep)
  {
    if a == [] {
      assert a + [sep] + t == [sep] + t;
      assert ([sep] + t)[1..] == t;
    } else {
      var s := a + [sep] + t;
      assert s[0] == a[0] && s[1..] == a[1..] + [sep] + t;
      SplitCons(a[1..], sep, t);
      assert [a[0]] + a[1..] == a;
    }
  }

  /** A string without separators splits into itself. */
  lemma {:induction false} SplitNoSep(a: string, sep: char)
    requires NoSep(a, sep)
    ensures Split(a, sep) == [a]
  {
    if a != [] {
      SplitNoSep(a[1..], sep);
      assert [a[0]] + a[1..] == a;
    }
  }

  /** Splitting a join gives back the parts, provided no part holds the separator. */
  lemma {:induction false} SplitJoin(parts: seq<string>, sep: char)
    requires |parts| >= 1
    requires forall i :: 0 <= i < |parts| ==> NoSep(parts[i], sep)
    ensures Split(Join(parts, sep), sep) == parts
  {
    if |parts| == 1 {
      SplitNoSep(parts[0], sep);
    } else {
      SplitJoin(parts[1..], sep);
      SplitCons(parts[0], sep, Join(parts[1..], sep));
      assert [parts[0]] + parts[1..] == parts;
    }
  }

  // ---------------------------------------------------------------------------
  // Iterating over the lines of a text file

  /** The lines `for line in open(fn)` visits, each without its terminating newline:
      no line for an empty file, and no empty last line after a final newline. */
  function Lines(text: string): (r: seq<string>)
    ensures forall i :: 0 <= i < |r| ==> NoSep(r[i], '\n')
  {
    if text == [] then []
    else
      var parts := Split(text, '\n');
      if parts[|parts| - 1] == "" then parts[..|parts| - 1] else parts
  }

  /** The text of a file written as one `line + "\n"` per line. */
  function WriteLines(lines: seq<string>): string
  {
    if lines == [] then "" else lines[0] + "\n" + WriteLines(lines[1..])
  }

  lemma {:induction false} WriteLinesIsJoin(lines: seq<string>)
    ensures WriteLines(lines) == Join(lines + [""], '\n')
  {
    if lines != [] {
      WriteLinesIsJoin(lines[1..]);
      assert (lines + [""])[1..] == lines[1..] + [""];
    }
  }

  /** Reading back a file written line by line gives the same lines. */
  lemma LinesWriteLines(lines: seq<string>)
    requires forall i :: 0 <= i < |lines| ==> NoSep(lines[i], '\n')
    ensures Lines(WriteLines(lines)) == lines
  {
    var parts := lines + [""];
    WriteLinesIsJoin(lines);
    SplitJoin(parts, '\n');
    if lines != [] {
      assert WriteLines(lines) != [] by {
        assert |WriteLines(lines)| >= 1;
      }
      assert parts[..|parts| - 1] == lines;
    }
  }

  // ---------------------------------------------------------------------------
  // str.split() with no argument

  /** The longest prefix of `s` without whitespace. */
  function TakeWord(s: string): (w: string)
    ensures |w| <= |s| && w == s[..|w|]
    ensures forall i :: 0 <= i < |w| ==> !IsSpace(w[i])
    ensures |w| < |s| ==> IsSpace(s[|w|])
  {
    if s == [] || IsSpace(s[0]) then "" else [s[0]] + TakeWord(s[1..])
  }

  /** `s.split()`: the maximal runs of non-whitespace characters, in order. */
  function Words(s: string): (r: seq<string>)
    ensures forall i :: 0 <= i < |r| ==> IsToken(r[i])
    decreases |s|
  {
    if s == [] then []
    else if IsSpace(s[0]) then Words(s[1..])
    else
      var w := TakeWord(s);
      [w] + Words(s[|w|..])
  }

  lemma {:induction false} TakeWordPrefix(a: string, t: string)
    requires forall i :: 0 <= i < |a| ==> !IsSpace(a[i])
    requires t == [] || IsSpace(t[0])
    ensures TakeWord(a + t) == a
  {
    if a == [] {
      assert a + t == t;
    } else {
      assert (a + t)[1..] == a[1..] + t;
      TakeWordPrefix(a[1..], t);
      assert [a[0]] + a[1..] == a;
    }
  }

  lemma WordsOfToken(a: string)
    requires IsToken(a)
    ensures Words(a) == [a]
  {
    TakeWordPrefix(a, []);
    assert a + [] == a;
    assert a[|a|..] == [];
  }

  /** Two tokens separated by a tab split into exactly those two words. */
  lemma WordsOfPair(a: string, b: string)
    requires IsToken(a) && IsToken(b)
    ensures Words(a + "\t" + b) == [a, b]
  {
    var s := a + "\t" + b;
    TakeWordPrefix(a, "\t" + b);
    assert s == a + ("\t" + b);
    assert s[|a|..] == "\t" + b;
    assert ("\t" + b)[1..] == b;
    WordsOfToken(b);
  }

  // ---------------------------------------------------------------------------
  // Decimal integers: Python's str(n) and int(token)

  function DigitChar(d: nat): char
    requires d < 10
  {
    "0123456789"[d]
  }

  function DigitValue(c: char): nat
  {
    if '0' <= c <= '9' then (c as int - '0' as int) as nat else 0
  }

  predicate IsDigit(c: char)
  {
    '0' <= c <= '9'
  }

  predicate AllDigits(s: string)
  {
    forall i :: 0 <= i < |s| ==> IsDigit(s[i])
  }

  /** `str(n)` for a non-negative integer: decimal digits, no leading zeros. */
  function NatToString(n: nat): (s: string)
    ensures |s| >= 1 && AllDigits(s)
    ensures |s| > 1 ==> s[0] != '0'
  {
    if n < 10 then [DigitChar(n)] else NatToString(n / 10) + [DigitChar(n % 10)]
  }

  /** The value of a string of decimal digits. */
  function DigitsValue(s: string): nat
    requires AllDigits(s)
  {
    if s == [] then 0 else 10 * DigitsValue(s[..|s| - 1]) + DigitValue(s[|s| - 1])
  }

  /** `str(n)` for any integer. */
  function IntToString(n: int): string
  {
    if n < 0 then "-" + NatToString(-n) else NatToString(n)
  }

  /** Python 2's `int(token)` on a token: an optional sign, then one or more
      decimal digits; anything else raises ValueError (None here). */
  function ParseInt(s: string): Option<int>
  {
    if |s| >= 2 && (s[0] == '-' || s[0] == '+') && AllDigits(s[1..]) then
      var v: int := DigitsValue(s[1..]);
      Some(if s[0] == '-' then -v else v)
    else if |s| >= 1 && AllDigits(s) then Some(DigitsValue(s))
    else None
  }

  lemma {:induction false} DigitsValueNatToString(n: nat)
    ensures DigitsValue(NatToString(n)) == n
  {
    if n >= 10 {
      DigitsValueNatToString(n / 10);
      var s := NatToString(n);
      assert s[..|s| - 1] == NatToString(n / 10);
    }
  }

  /** `int(str(n)) == n`: the count written to a kmer file reads back unchanged. */
  lemma ParseIntToString(n: int)
    ensures ParseInt(IntToString(n)) == Some(n)
  {
    var s := IntToString(n);
    if n < 0 {
      var d := NatToString(-n);
      DigitsValueNatToString(-n);
      assert s == "-" + d && s[0] == '-' && s[1..] == d;
    } else {
      DigitsValueNatToString(n);
      assert IsDigit(s[0]);
    }
  }

  /** `str(n)` never holds whitespace and is never empty. */
  lemma IntToStringIsToken(n: int)
    ensures IsToken(IntToString(n))
  {
    var s := IntToString(n);
    var d := NatToString(if n < 0 then -n else n);
    assert forall i :: 0 <= i < |d| ==> !IsSpace(d[i]) by {
      forall i | 0 <= i < |d| ensures !IsSpace(d[i]) { assert IsDigit(d[i]); }
    }
  }

  /** Different numbers print differently. */
  lemma NatToStringInjective(m: nat, n: nat)
    requires NatToString(m) == NatToString(n)
    ensures m == n
  {
    DigitsValueNatToString(m);
    DigitsValueNatToString(n);
  }
}

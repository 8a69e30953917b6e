/** The few pieces of Python's `str` semantics the bot relies on:
    `split(" ")`, `" ".join`, `startswith`, `lstrip(chars)`, `strip()` and the
    decimal formatting of `int` by `str.format`. */
module PyStr {
  import opened Wrappers

  /** Number of occurrences of `c` in `s`. */
  function Count(s: string, c: char): nat
  {
    if s == [] then 0
    else (if s[0] == c then 1 else 0) + Count(s[1..], c)
  }

  /** No string holds more occurrences than characters, and none exactly
      when the character is absent. */
  lemma {:induction false} CountSpec(s: string, c: char)
    ensures Count(s, c) <= |s|
    ensures Count(s, c) == 0 <==> c !in s
  {
    if s != [] {
      CountSpec(s[1..], c);
      assert s == [s[0]] + s[1..];
    }
  }

  /** `sep.join(parts)`: the parts with one `sep` between neighbours. */
  function Join(parts: seq<string>, sep: char): string
  {
    if parts == [] then ""
    else if |parts| == 1 then parts[0]
    else parts[0] + [sep] + Join(parts[1..], sep)
  }

  /** `s.split(sep)` with an explicit one-character separator: every
      occurrence of `sep` cuts, so neighbouring separators give empty
      parts and the empty string gives one empty part. */
  function Split(s: string, sep: char): (parts: seq<string>)
    ensures |parts| >= 1
  {
    if s == [] then [[]]
    else
      var rest := Split(s[1..], sep);
      if s[0] == sep then [[]] + rest
      else [[s[0]] + rest[0]] + rest[1..]
  }

  /** One part more than there are separators. */
  lemma {:induction false} SplitCount(s: string, sep: char)
    ensures |Split(s, sep)| == Count(s, sep) + 1
  {
    if s != [] {
      SplitCount(s[1..], sep);
    }
  }

  /** No part holds the separator. */
  lemma {:induction false} SplitPartsSepFree(s: string, sep: char)
    ensures forall i :: 0 <= i < |Split(s, sep)| ==> sep !in Split(s, sep)[i]
  {
    if s != [] {
      SplitPartsSepFree(s[1..], sep);
      var rest := Split(s[1..], sep);
      var parts := Split(s, sep);
      if s[0] == sep {
        forall i | 0 <= i < |parts| ensures sep !in parts[i] {
          if i > 0 { assert parts[i] == rest[i - 1]; }
        }
      } else {
        forall i | 0 <= i < |parts| ensures sep !in parts[i] {
          if i > 0 { assert parts[i] == rest[i]; }
          else { assert parts[0] == [s[0]] + rest[0]; }
        }
      }
    }
  }

  /** The parts join back into the original string. */
  lemma {:induction false} SplitJoinsBack(s: string, sep: char)
    ensures Join(Split(s, sep), sep) == s
  {
    if s != [] {
      var rest := Split(s[1..], sep);
      SplitJoinsBack(s[1..], sep);
      var parts := Split(s, sep);
      if s[0] == sep {
        assert parts == [[]] + rest;
        assert parts[1..] == rest;
        assert Join(parts, sep) == [] + [sep] + Join(rest, sep);
        assert s == [sep] + s[1..];
      } else {
        var head := [s[0]] + rest[0];
        assert s == [s[0]] + s[1..];
        if |rest| == 1 {
          assert parts == [head];
        } else {
          assert parts == [head] + rest[1..];
          assert parts[1..] == rest[1..];
          calc {
            Join(parts, sep);
            head + [sep] + Join(rest[1..], sep);
            [s[0]] + (rest[0] + [sep] + Join(rest[1..], sep));
            [s[0]] + Join(rest, sep);
          }
        }
      }
    }
  }

  /** Splitting a joined sequence of separator-free parts gives the parts back. */
  lemma {:induction false} SplitJoin(parts: seq<string>, sep: char)
    requires |parts| >= 1
    requires forall i :: 0 <= i < |parts| ==> sep !in parts[i]
    ensures Split(Join(parts, sep), sep) == parts
  {
    if |parts| == 1 {
      SplitNoSep(parts[0], sep);
    } else {
      SplitJoin(parts[1..], sep);
      SplitConcat(parts[0], Join(parts[1..], sep), sep);
      SplitNoSep(parts[0], sep);
      assert parts == [parts[0]] + parts[1..];
    }
  }

  /** A string without the separator splits into itself alone. */
  lemma {:induction false} SplitNoSep(s: string, sep: char)
    requires sep !in s
    ensures Split(s, sep) == [s]
  {
    var parts := Split(s, sep);
    SplitJoinsBack(s, sep);
    assert |parts| == 1 by { CountSpec(s, sep); SplitCount(s, sep); }
    assert Join(parts, sep) == parts[0];
  }

  /** Cutting at one separator splits the two sides independently. */
  lemma {:induction false} SplitConcat(a: string, b: string, sep: char)
    requires sep !in a
    ensures Split(a + [sep] + b, sep) == [a] + Split(b, sep)
  {
    if a == [] {
      assert a + [sep] + b == [sep] + b;
      assert ([sep] + b)[1..] == b;
    } else {
      var s := a + [sep] + b;
      assert s[0] == a[0] && s[0] != sep;
      assert s[1..] == a[1..] + [sep] + b;
      SplitConcat(a[1..], b, sep);
      var rest := Split(s[1..], sep);
      assert rest[0] == a[1..] && rest[1..] == Split(b, sep);
      assert Split(s, sep) == [[s[0]] + rest[0]] + rest[1..];
      assert [a[0]] + a[1..] == a;
    }
  }

  /** Three separator-free fields in front of a string, each followed by
      one space, split off as three parts of their own. */
  lemma SplitLeadingFields(w: string, b: string, n: string, rest: string)
    requires ' ' !in w && ' ' !in b && ' ' !in n
    ensures Split(w + " " + b + " " + n + " " + rest, ' ') == [w, b, n] + Split(rest, ' ')
  {
    var t2 := n + [' '] + rest;
    var t1 := b + [' '] + t2;
    assert w + " " + b + " " + n + " " + rest == w + [' '] + t1;
    SplitConcat(n, rest, ' ');
    SplitConcat(b, t2, ' ');
    SplitConcat(w, t1, ' ');
  }

  /** Python's `s.startswith(prefix)`. */
  predicate StartsWith(s: string, prefix: string)
  {
    |prefix| <= |s| && s[..|prefix|] == prefix
  }

  /** Python's `s.lstrip(chars)`: drops every leading character that occurs
      anywhere in `chars` (a character set, not a prefix). */
  function LStripChars(s: string, chars: string): string
  {
    if s != [] && s[0] in chars then LStripChars(s[1..], chars) else s
  }

  /** `lstrip(chars)` returns the suffix left after the longest prefix made
      only of characters from `chars`. */
  lemma {:induction false} LStripCharsSpec(s: string, chars: string)
    ensures var r := LStripChars(s, chars);
      && |r| <= |s| && r == s[|s| - |r|..]
      && (forall k :: 0 <= k < |s| - |r| ==> s[k] in chars)
      && (r == [] || r[0] !in chars)
  {
    if s != [] && s[0] in chars {
      var tail := s[1..];
      LStripCharsSpec(tail, chars);
      var r := LStripChars(tail, chars);
      assert LStripChars(s, chars) == r;
      assert r == s[|s| - |r|..] by { assert tail[|tail| - |r|..] == s[|s| - |r|..]; }
      forall k | 0 <= k < |s| - |r| ensures s[k] in chars {
        if k > 0 { assert s[k] == tail[k - 1]; }
      }
    }
  }

  /** When the character right after `prefix` is outside `prefix`'s
      character set, `lstrip(prefix)` removes exactly that prefix. */
  lemma LStripRemovesPrefix(s: string, prefix: string)
    requires StartsWith(s, prefix)
    requires |s| == |prefix| || s[|prefix|] !in prefix
    ensures LStripChars(s, prefix) == s[|prefix|..]
  {
    LStripCharsSpec(s, prefix);
    var r := LStripChars(s, prefix);
    assert |s| - |r| == |prefix|;
  }

  /** `lstrip` removes a leading run of characters from the set. */
  lemma {:induction false} LStripRun(run: string, s: string, chars: string)
    requires forall k :: 0 <= k < |run| ==> run[k] in chars
    ensures LStripChars(run + s, chars) == LStripChars(s, chars)
  {
    if run != [] {
      assert (run + s)[0] == run[0];
      assert (run + s)[1..] == run[1..] + s;
      LStripRun(run[1..], s, chars);
    } else {
      assert run + s == s;
    }
  }

  /** `lstrip` is not prefix removal: with key "a1b2c3" the reply
      "a1b2c3c4" loses the `c` of the move as well. */
  lemma LStripOverStrips()
    ensures LStripChars("a1b2c3c4", "a1b2c3") == "4"
    ensures "a1b2c3c4"[|"a1b2c3"|..] == "c4"
  {
    var key := "a1b2c3";
    var run := "a1b2c3c";
    assert "a1b2c3c4" == run + "4";
    forall k | 0 <= k < |run| ensures run[k] in key {
      if k == 6 { assert run[k] == key[4]; } else { assert run[k] == key[k]; }
    }
    LStripRun(run, "4", key);
    assert '4' !in key;
  }

  /** Python's `str.isspace` for one character: the characters `str.strip()`
      removes (ASCII whitespace, the information separators U+001C..U+001F,
      U+0085, and the Unicode space separators and line/paragraph separators). */
  predicate IsSpace(c: char)
  {
    var n := c as int;
    || 0x09 <= n <= 0x0D || 0x1C <= n <= 0x20
    || n == 0x85 || n == 0xA0 || n == 0x1680
    || 0x2000 <= n <= 0x200A || n == 0x2028 || n == 0x2029
    || n == 0x202F || n == 0x205F || n == 0x3000
  }

  predicate AllSpace(s: string)
  {
    forall k :: 0 <= k < |s| ==> IsSpace(s[k])
  }

  /** `s.lstrip()`. */
  function StripLeading(s: string): string
  {
    if s != [] && IsSpace(s[0]) then StripLeading(s[1..]) else s
  }

  /** `s.rstrip()`. */
  function StripTrailing(s: string): string
  {
    if s != [] && IsSpace(s[|s| - 1]) then StripTrailing(s[..|s| - 1]) else s
  }

  /** `s.strip()`. */
  function Strip(s: string): string
  {
    StripTrailing(StripLeading(s))
  }

  lemma {:induction false} StripLeadingSpec(s: string)
    ensures var r := StripLeading(s);
      && |r| <= |s| && r == s[|s| - |r|..]
      && AllSpace(s[..|s| - |r|])
      && (r == [] || !IsSpace(r[0]))
  {
    if s != [] && IsSpace(s[0]) {
      StripLeadingSpec(s[1..]);
      var r := StripLeading(s);
      assert s[..|s| - |r|] == [s[0]] + s[1..][..|s| - 1 - |r|];
    }
  }

  lemma {:induction false} StripTrailingSpec(s: string)
    ensures var r := StripTrailing(s);
      && |r| <= |s| && r == s[..|r|]
      && AllSpace(s[|r|..])
      && (r == [] || !IsSpace(r[|r| - 1]))
  {
    if s != [] && IsSpace(s[|s| - 1]) {
      var p := s[..|s| - 1];
      StripTrailingSpec(p);
      var r := StripTrailing(s);
      assert s[|r|..] == p[|r|..] + [s[|s| - 1]];
    }
  }

  /** `strip()` returns the middle part of `s` that neither starts nor ends
      with whitespace, everything around it being whitespace. */
  lemma StripSpec(s: string)
    ensures var r := Strip(s);
      && (r == [] || (!IsSpace(r[0]) && !IsSpace(r[|r| - 1])))
      && exists lead :: 0 <= lead <= |s| - |r| && r == s[lead..lead + |r|]
           && AllSpace(s[..lead]) && AllSpace(s[lead + |r|..])
  {
    StripLeadingSpec(s);
    var left := StripLeading(s);
    StripTrailingSpec(left);
    var r := StripTrailing(left);
    var lead := |s| - |left|;
    assert r == s[lead..lead + |r|];
    assert s[lead + |r|..] == left[|r|..];
  }

  lemma {:induction false} StripLeadingSpace(a: string, t: string)
    requires AllSpace(a)
    ensures StripLeading(a + t) == StripLeading(t)
  {
    if a == [] {
      assert a + t == t;
    } else {
      var s := a + t;
      assert s[0] == a[0] && IsSpace(s[0]);
      assert s[1..] == a[1..] + t;
      assert StripLeading(s) == StripLeading(s[1..]);
      assert AllSpace(a[1..]) by {
        forall k | 0 <= k < |a[1..]| ensures IsSpace(a[1..][k]) { assert a[1..][k] == a[k + 1]; }
      }
      StripLeadingSpace(a[1..], t);
    }
  }

  lemma {:induction false} StripTrailingSpace(t: string, b: string)
    requires AllSpace(b)
    ensures StripTrailing(t + b) == StripTrailing(t)
  {
    if b != [] {
      var s := t + b;
      var b' := b[..|b| - 1];
      assert s[|s| - 1] == b[|b| - 1] && IsSpace(s[|s| - 1]);
      assert s[..|s| - 1] == t + b';
      assert StripTrailing(s) == StripTrailing(s[..|s| - 1]);
      assert AllSpace(b') by {
        forall k | 0 <= k < |b'| ensures IsSpace(b'[k]) { assert b'[k] == b[k]; }
      }
      StripTrailingSpace(t, b');
    } else {
      assert t + b == t;
    }
  }

  /** Whitespace around a trimmed string is exactly what `strip()` removes. */
  lemma StripSurrounded(a: string, m: string, b: string)
    requires AllSpace(a) && AllSpace(b)
    requires m == [] || (!IsSpace(m[0]) && !IsSpace(m[|m| - 1]))
    ensures Strip(a + m + b) == m
  {
    assert a + m + b == a + (m + b);
    StripLeadingSpace(a, m + b);
    if m == [] {
      assert m + b == b;
      StripLeadingSpace(b, []);
      assert b + [] == b;
    } else {
      assert StripLeading(m + b) == m + b;
      StripTrailingSpace(m, b);
    }
  }

  predicate IsDigit(c: char)
  {
    '0' <= c <= '9'
  }

  predicate AllDigits(s: string)
  {
    forall k :: 0 <= k < |s| ==> IsDigit(s[k])
  }

  function DigitChar(d: nat): (c: char)
    requires d < 10
    ensures IsDigit(c) && (c as int) - ('0' as int) == d
  {
    ((d + '0' as int) as char)
  }

  /** Decimal digits of a non-negative integer, no leading zeros, as
      Python's `str(n)` writes them. */
  function NatToDecimal(n: nat): (s: string)
    ensures |s| >= 1 && AllDigits(s)
    ensures s[0] == '0' ==> n == 0 && |s| == 1
  {
    if n < 10 then [DigitChar(n)]
    else NatToDecimal(n / 10) + [DigitChar(n % 10)]
  }

  /** `"{}".format(i)` for an `int`: a minus sign before the digits of a
      negative value. */
  function IntToDecimal(i: int): (s: string)
    ensures |s| >= 1 && ' ' !in s
    ensures i < 0 <==> s[0] == '-'
  {
    if i < 0 then "-" + NatToDecimal(-i) else NatToDecimal(i)
  }

  /** Value of a string of decimal digits. */
  function ParseNat(s: string): nat
    requires AllDigits(s)
  {
    if s == [] then 0
    else ParseNat(s[..|s| - 1]) * 10 + ((s[|s| - 1] as int) - ('0' as int))
  }

  /** Reads back what `IntToDecimal` writes; `None` for anything else. */
  function ParseInt(s: string): Option<int>
  {
    if |s| >= 2 && s[0] == '-' && AllDigits(s[1..]) then Some(0 - ParseNat(s[1..]))
    else if |s| >= 1 && AllDigits(s) then Some(ParseNat(s))
    else None
  }

  lemma {:induction false} ParseNatDecimal(n: nat)
    ensures ParseNat(NatToDecimal(n)) == n
  {
    if n >= 10 {
      var s := NatToDecimal(n);
      ParseNatDecimal(n / 10);
      assert s[..|s| - 1] == NatToDecimal(n / 10);
    }
  }

  /** Decimal formatting of an `int` round-trips through `ParseInt`. */
  lemma ParseIntDecimal(i: int)
    ensures ParseInt(IntToDecimal(i)) == Some(i)
  {
    var s := IntToDecimal(i);
    if i < 0 {
      var digits := NatToDecimal(-i);
      assert s == "-" + digits && s[1..] == digits;
      ParseNatDecimal(-i);
      assert ParseInt(s) == Some(0 - ParseNat(digits));
    } else {
      assert s == NatToDecimal(i) && s[0] != '-';
      ParseNatDecimal(i);
    }
  }
}

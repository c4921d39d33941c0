/**
 * The escaped-newline expansion both notifier scripts apply last:
 * `re.sub(r"(^|[^\\])(\\n)", "\\1\n", message)`. A two-character `\n`
 * (backslash, letter n) at the start of the text, or after a character that
 * is not a backslash, becomes a real newline; `\\n` stays as it is.
 *
 * The regular-expression scan is modelled as it runs (`ExpandNewlines`), and
 * a second, position-by-position definition (`Converted`, `Emitted`) says
 * which pairs it converts; `ExpandMatchesEmitted` proves the two agree.
 */
module Newlines {

  /** Backslash then `n` at index `i`: the two-character escape. */
  predicate EscapeAt(s: string, i: int)
  {
    0 <= i && i + 1 < |s| && s[i] == '\\' && s[i + 1] == 'n'
  }

  /**
   * The substitution scan after the start of the text, where `^` cannot match:
   * a non-backslash followed by `\n` is emitted with a newline in place of the
   * escape and the scan resumes after the three characters; any other
   * character is copied.
   */
  function ScanNewlines(s: string): (r: string)
    ensures |r| <= |s|
    ensures forall c :: c in r ==> c in s || c == '\n'
    decreases |s|
  {
    if |s| >= 3 && s[0] != '\\' && s[1] == '\\' && s[2] == 'n' then [s[0], '\n'] + ScanNewlines(s[3..])
    else if s == [] then []
    else [s[0]] + ScanNewlines(s[1..])
  }

  /** The whole substitution: the `^` alternative first, at index 0 only. */
  function ExpandNewlines(s: string): (r: string)
    ensures |r| <= |s|
    ensures forall c :: c in r ==> c in s || c == '\n'
  {
    if EscapeAt(s, 0) then "\n" + ScanNewlines(s[2..]) else ScanNewlines(s)
  }

  /* ---------------------------------------------------------------------- */
  /* Reference definition: which escapes are converted                      */
  /* ---------------------------------------------------------------------- */

  /**
   * The escape at `p` is converted: it is at the start, or the character
   * before it is not a backslash and was not already used up as the `n` of a
   * converted escape at `p - 2` (matches do not overlap).
   */
  predicate Converted(s: string, p: int)
    decreases p
  {
    EscapeAt(s, p) && (p == 0 || (s[p - 1] != '\\' && (p < 2 || !Converted(s, p - 2))))
  }

  /**
   * What input position `i` contributes to the output: nothing for the
   * backslash of a converted escape, a newline for its `n`, otherwise the
   * character itself.
   */
  function Emitted(s: string, i: nat): string
    requires i < |s|
  {
    if Converted(s, i) then ""
    else if i > 0 && Converted(s, i - 1) then "\n"
    else [s[i]]
  }

  /** The contributions of positions `i` to the end, in order. */
  function EmittedFrom(s: string, i: nat): string
    requires i <= |s|
    decreases |s| - i
  {
    if i == |s| then "" else Emitted(s, i) + EmittedFrom(s, i + 1)
  }

  /** Number of converted escapes at positions `i` to the end. */
  function ConvertedFrom(s: string, i: nat): nat
    requires i <= |s|
    decreases |s| - i
  {
    if i == |s| then 0 else (if Converted(s, i) then 1 else 0) + ConvertedFrom(s, i + 1)
  }

  /* ---------------------------------------------------------------------- */
  /* The scan agrees with the reference                                     */
  /* ---------------------------------------------------------------------- */

  /** The expansion is the concatenation of every position's contribution. */
  lemma ExpandMatchesEmitted(s: string)
    ensures ExpandNewlines(s) == EmittedFrom(s, 0)
  {
    if EscapeAt(s, 0) {
      assert Converted(s, 0) && !Converted(s, 1) && !Converted(s, 2);
      assert Emitted(s, 0) == "" && Emitted(s, 1) == "\n";
      ScanMatchesEmitted(s, 2);
      assert EmittedFrom(s, 0) == "" + ("\n" + EmittedFrom(s, 2));
    } else {
      assert !Converted(s, 0);
      ScanMatchesEmitted(s, 0);
      assert s[0..] == s;
    }
  }

  /**
   * From a position the scan can stand at (neither the backslash nor the `n`
   * of a converted escape) the scan of the rest is the rest's contributions.
   */
  lemma {:induction false} ScanMatchesEmitted(s: string, i: nat)
    requires i <= |s|
    requires !Converted(s, i)
    requires i > 0 ==> !Converted(s, i - 1)
    ensures ScanNewlines(s[i..]) == EmittedFrom(s, i)
    decreases |s| - i
  {
    var t := s[i..];
    if |t| >= 3 && t[0] != '\\' && t[1] == '\\' && t[2] == 'n' {
      assert Converted(s, i + 1);
      assert !Converted(s, i + 2) && !Converted(s, i + 3);
      ScanMatchesEmitted(s, i + 3);
      assert t[3..] == s[i + 3..];
      assert Emitted(s, i) == [s[i]];
      assert Emitted(s, i + 1) == "";
      assert Emitted(s, i + 2) == "\n";
      calc {
        EmittedFrom(s, i);
        Emitted(s, i) + EmittedFrom(s, i + 1);
        [s[i]] + ("" + EmittedFrom(s, i + 2));
        [s[i]] + ("\n" + EmittedFrom(s, i + 3));
        [s[i], '\n'] + ScanNewlines(s[i + 3..]);
      }
    } else if t != [] {
      assert !Converted(s, i + 1);
      ScanMatchesEmitted(s, i + 1);
      assert t[1..] == s[i + 1..];
      assert Emitted(s, i) == [s[i]];
    }
  }

  /* ---------------------------------------------------------------------- */
  /* Consequences                                                           */
  /* ---------------------------------------------------------------------- */

  /** The output is the input shortened by one character per conversion. */
  lemma ExpandLength(s: string)
    ensures |ExpandNewlines(s)| == |s| - ConvertedFrom(s, 0)
  {
    ExpandMatchesEmitted(s);
    EmittedFromLength(s, 0);
  }

  lemma {:induction false} EmittedFromLength(s: string, i: nat)
    requires i <= |s|
    ensures |EmittedFrom(s, i)| == (|s| - i) - ConvertedFrom(s, i)
    decreases |s| - i
  {
    if i < |s| {
      EmittedFromLength(s, i + 1);
      ConvertedFromBound(s, i + 1);
    }
  }

  lemma {:induction false} ConvertedFromBound(s: string, i: nat)
    requires i <= |s|
    ensures ConvertedFrom(s, i) <= |s| - i
    decreases |s| - i
  {
    if i < |s| {
      ConvertedFromBound(s, i + 1);
    }
  }

  /**
   * The output contributed from position `i` on is a suffix of the output
   * contributed from any earlier position `j`: contributions keep their order.
   */
  lemma {:induction false} EmittedFromSuffix(s: string, j: nat, i: nat)
    requires j <= i <= |s|
    ensures |EmittedFrom(s, i)| <= |EmittedFrom(s, j)|
    ensures EmittedFrom(s, j)[|EmittedFrom(s, j)| - |EmittedFrom(s, i)|..] == EmittedFrom(s, i)
    decreases i - j
  {
    if j < i {
      EmittedFromSuffix(s, j + 1, i);
      var a := EmittedFrom(s, j);
      var b := EmittedFrom(s, j + 1);
      var c := EmittedFrom(s, i);
      assert a == Emitted(s, j) + b;
      assert a[|a| - |c|..] == b[|b| - |c|..];
    }
  }

  /**
   * A character that is not part of a converted escape appears in the output,
   * unchanged, at its own index less the conversions before it.
   */
  lemma CopiedCharacter(s: string, i: nat)
    requires i < |s|
    requires !Converted(s, i) && !(i > 0 && Converted(s, i - 1))
    ensures 0 <= i - (ConvertedFrom(s, 0) - ConvertedFrom(s, i)) < |ExpandNewlines(s)|
    ensures ExpandNewlines(s)[i - (ConvertedFrom(s, 0) - ConvertedFrom(s, i))] == s[i]
  {
    ExpandMatchesEmitted(s);
    EmittedFromSuffix(s, 0, i);
    EmittedFromLength(s, 0);
    EmittedFromLength(s, i);
    var out := EmittedFrom(s, 0);
    var tail := EmittedFrom(s, i);
    assert tail == [s[i]] + EmittedFrom(s, i + 1);
    assert out[|out| - |tail|..][0] == s[i];
  }

  /**
   * A converted escape becomes one newline, at the index of its backslash
   * less the conversions before it.
   */
  lemma ConvertedBecomesNewline(s: string, p: nat)
    requires p < |s| && Converted(s, p)
    ensures 0 <= p - (ConvertedFrom(s, 0) - ConvertedFrom(s, p)) < |ExpandNewlines(s)|
    ensures ExpandNewlines(s)[p - (ConvertedFrom(s, 0) - ConvertedFrom(s, p))] == '\n'
  {
    ExpandMatchesEmitted(s);
    EmittedFromSuffix(s, 0, p);
    EmittedFromLength(s, 0);
    EmittedFromLength(s, p);
    var out := EmittedFrom(s, 0);
    var tail := EmittedFrom(s, p);
    assert !Converted(s, p + 1);
    assert tail == "" + ("\n" + EmittedFrom(s, p + 2));
    assert out[|out| - |tail|..][0] == '\n';
  }

  /** An escape at the very start is converted. */
  lemma LeadingEscapeConverted(s: string)
    requires EscapeAt(s, 0)
    ensures Converted(s, 0) && ExpandNewlines(s)[0] == '\n'
  {
  }

  /** An escape after a character that is itself free is converted. */
  lemma EscapeAfterPlainConverted(s: string, p: int)
    requires EscapeAt(s, p) && p > 0 && s[p - 1] != '\\'
    requires p < 2 || !Converted(s, p - 2)
    ensures Converted(s, p)
  {
  }

  /** `\\n`: an escape right after a backslash is not converted, and all three characters are kept. */
  lemma EscapedBackslashKept(s: string, p: nat)
    requires EscapeAt(s, p + 1) && s[p] == '\\'
    ensures !Converted(s, p + 1)
    ensures Emitted(s, p) == "\\" && Emitted(s, p + 1) == "\\" && Emitted(s, p + 2) == "n"
  {
    assert !Converted(s, p);
    assert p > 0 ==> !Converted(s, p - 1);
  }

  /** In back-to-back escapes the second is not converted when the first is. */
  lemma BackToBackSecondKept(s: string, p: nat)
    requires Converted(s, p) && EscapeAt(s, p + 2)
    ensures !Converted(s, p + 2)
    ensures Emitted(s, p + 2) == "\\" && Emitted(s, p + 3) == "n"
  {
  }

  /** With no escape anywhere the expansion changes nothing. */
  lemma {:induction false} ScanWithoutBackslash(s: string)
    requires '\\' !in s
    ensures ScanNewlines(s) == s
    ensures ExpandNewlines(s) == s
    decreases |s|
  {
    if s != [] {
      ScanWithoutBackslash(s[1..]);
      assert s == [s[0]] + s[1..];
    }
  }

  /**
   * A backslash-free, non-empty stretch followed by an escape: the stretch is
   * copied and the escape becomes a newline.
   */
  lemma {:induction false} ScanBreaksAfter(a: string, b: string)
    requires |a| > 0 && '\\' !in a
    ensures ScanNewlines(a + ("\\n" + b)) == a + ("\n" + ScanNewlines(b))
    decreases |a|
  {
    var s := a + ("\\n" + b);
    if |a| == 1 {
      assert s[3..] == b;
    } else {
      assert s[1] == a[1];
      ScanBreaksAfter(a[1..], b);
      assert s[1..] == a[1..] + ("\\n" + b);
      assert a == [a[0]] + a[1..];
    }
  }

  /** A pair after a backslash is kept: the backslash escapes the backslash, not the `n`. */
  lemma EscapedPairExample()
    ensures ExpandNewlines("a\\\\nb") == "a\\\\nb"
  {
    var s := "a\\\\nb";
    assert ScanNewlines(s[4..]) == "b";
    assert ScanNewlines(s[3..]) == "nb";
    assert ScanNewlines(s[2..]) == "\\nb";
    assert ScanNewlines(s[1..]) == "\\\\nb";
    assert ScanNewlines(s) == [s[0]] + ScanNewlines(s[1..]);
  }

  /** Concrete cases: the start rule, a pair after a plain character, back to back. */
  lemma Examples()
    ensures ExpandNewlines("\\nx") == "\nx"
    ensures ExpandNewlines("a\\nb") == "a\nb"
    ensures ExpandNewlines("\\n\\n") == "\n\\n"
    ensures ExpandNewlines("a\\n\\nb") == "a\n\\nb"
  {
  }
}

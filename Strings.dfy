/**
 * The Python string operations the notifier scripts apply to a message:
 * `" ".join(words)`, `str.replace(old, new)` and `str(int)`, with the
 * reference definitions (split on a space, occurrence of a pattern, decimal
 * value of a digit string) that pin down what each one means.
 */
module Strings {

  /* ---------------------------------------------------------------------- */
  /* " ".join(words)                                                        */
  /* ---------------------------------------------------------------------- */

  /** `" ".join(words)`: the words separated by single spaces. */
  function Join(words: seq<string>): (r: string)
    ensures |words| >= 1 ==> |r| == Letters(words) + |words| - 1
  {
    if words == [] then ""
    else if |words| == 1 then words[0]
    else words[0] + " " + Join(words[1..])
  }

  /** The total length of the words. */
  function Letters(words: seq<string>): nat
  {
    if words == [] then 0 else |words[0]| + Letters(words[1..])
  }

  /** `s.split(" ")`: the pieces between single spaces (always at least one piece). */
  function Split(s: string): (parts: seq<string>)
    ensures |parts| >= 1
    decreases |s|
  {
    if s == [] then [""]
    else
      var rest := Split(s[1..]);
      if s[0] == ' ' then [""] + rest
      else [[s[0]] + rest[0]] + rest[1..]
  }

  /** The joined text is empty exactly when there is no word, or one empty word. */
  lemma JoinEmptyIff(words: seq<string>)
    ensures Join(words) == "" <==> (words == [] || words == [""])
  {
    if |words| >= 2 {
      assert Join(words)[|words[0]|] == ' ';
    }
  }

  /** Joining the pieces of a split gives back the text. */
  lemma {:induction false} JoinSplit(s: string)
    ensures Join(Split(s)) == s
    decreases |s|
  {
    if s != [] {
      var rest := Split(s[1..]);
      JoinSplit(s[1..]);
      if s[0] == ' ' {
        assert Split(s) == [""] + rest;
        assert ([""] + rest)[1..] == rest;
        assert Join(Split(s)) == "" + " " + Join(rest);
        assert s == [s[0]] + s[1..];
      } else {
        assert Split(s) == [[s[0]] + rest[0]] + rest[1..];
        JoinConsChar(s[0], rest[0], rest[1..]);
        assert [rest[0]] + rest[1..] == rest;
        assert s == [s[0]] + s[1..];
      }
    }
  }

  /** Joining a first word before the rest. */
  lemma JoinCons(w: string, rest: seq<string>)
    ensures Join([w] + rest) == if rest == [] then w else w + (" " + Join(rest))
  {
    assert ([w] + rest)[1..] == rest;
  }

  /** Prefixing the first piece with a character prefixes the joined text with it. */
  lemma JoinConsChar(c: char, w: string, rest: seq<string>)
    ensures Join([[c] + w] + rest) == [c] + Join([w] + rest)
  {
    JoinCons([c] + w, rest);
    JoinCons(w, rest);
    if rest != [] {
      var tail := Join(rest);
      assert ([c] + w) + (" " + tail) == [c] + (w + (" " + tail));
    }
  }

  /** Splitting the joined words gives back the words, when no word holds a space. */
  lemma {:induction false} SplitJoin(words: seq<string>)
    requires |words| >= 1
    requires forall i :: 0 <= i < |words| ==> ' ' !in words[i]
    ensures Split(Join(words)) == words
    decreases |words|
  {
    if |words| == 1 {
      SplitWithin(words[0], "");
      assert words[0] + "" == words[0];
    } else {
      var t := Join(words[1..]);
      SplitJoin(words[1..]);
      SplitWithin(words[0], " " + t);
      assert Split(" " + t) == [""] + Split(t) by {
        assert (" " + t)[1..] == t;
      }
      assert words[0] + " " + t == words[0] + (" " + t);
      assert words[0] + "" == words[0];
      assert words == [words[0]] + words[1..];
    }
  }

  /** A space-free prefix only extends the first piece of a split. */
  lemma {:induction false} SplitWithin(w: string, t: string)
    requires ' ' !in w
    ensures Split(w + t) == [w + Split(t)[0]] + Split(t)[1..]
    decreases |w|
  {
    if w == [] {
      assert w + t == t;
      assert w + Split(t)[0] == Split(t)[0];
      assert [Split(t)[0]] + Split(t)[1..] == Split(t);
    } else {
      SplitWithin(w[1..], t);
      assert (w + t)[1..] == w[1..] + t;
      assert w + Split(t)[0] == [w[0]] + (w[1..] + Split(t)[0]);
    }
  }

  /* ---------------------------------------------------------------------- */
  /* str.replace(old, new)                                                  */
  /* ---------------------------------------------------------------------- */

  /** `pat` occurs in `s` starting at index `j`. */
  predicate OccursAt(s: string, pat: string, j: int)
  {
    0 <= j && j + |pat| <= |s| && s[j..j + |pat|] == pat
  }

  /** `pat` occurs somewhere in `s`. */
  ghost predicate Occurs(s: string, pat: string)
  {
    exists j :: OccursAt(s, pat, j)
  }

  /**
   * `s.replace(pat, rep)`: scan left to right; at each index where `pat`
   * starts, emit `rep` and continue after the occurrence; otherwise copy one
   * character. The replacement text is never rescanned, and occurrences do not
   * overlap.
   */
  function Replace(s: string, pat: string, rep: string): (r: string)
    requires |pat| > 0
    ensures forall c :: c in r ==> c in s || c in rep
    decreases |s|
  {
    if |s| < |pat| then s
    else if s[..|pat|] == pat then rep + Replace(s[|pat|..], pat, rep)
    else [s[0]] + Replace(s[1..], pat, rep)
  }

  /**
   * The first occurrence is replaced and the scan resumes after it: the text
   * before it is copied, and the rest is treated the same way. With
   * `ReplaceAbsent` this determines `Replace` from the occurrences alone.
   */
  lemma {:induction false} ReplaceFirstOccurrence(s: string, pat: string, rep: string, j: nat)
    requires |pat| > 0
    requires OccursAt(s, pat, j)
    requires forall i :: 0 <= i < j ==> !OccursAt(s, pat, i)
    ensures Replace(s, pat, rep) == s[..j] + rep + Replace(s[j + |pat|..], pat, rep)
    decreases j
  {
    if j == 0 {
      assert s[..0] == [];
    } else {
      ReplaceCopiesHead(s, pat, rep);
      NoEarlierOccurrenceInTail(s, pat, j);
      ReplaceFirstOccurrence(s[1..], pat, rep, j - 1);
      FirstOccurrenceRegroup(s, pat, rep, j);
    }
  }

  /** The induction step of `ReplaceFirstOccurrence`: put the copied head back in front. */
  lemma FirstOccurrenceRegroup(s: string, pat: string, rep: string, j: nat)
    requires |pat| > 0 && 0 < j && j + |pat| <= |s|
    requires Replace(s, pat, rep) == [s[0]] + Replace(s[1..], pat, rep)
    requires Replace(s[1..], pat, rep) == s[1..][..j - 1] + rep + Replace(s[1..][j - 1 + |pat|..], pat, rep)
    ensures Replace(s, pat, rep) == s[..j] + rep + Replace(s[j + |pat|..], pat, rep)
  {
    assert s[1..][..j - 1] == s[1..j];
    assert s[1..][j - 1 + |pat|..] == s[j + |pat|..];
    var tail := Replace(s[j + |pat|..], pat, rep);
    assert [s[0]] + (s[1..j] + rep + tail) == ([s[0]] + s[1..j]) + rep + tail;
    assert [s[0]] + s[1..j] == s[..j];
  }

  /** Where no occurrence starts, one character is copied. */
  lemma ReplaceCopiesHead(s: string, pat: string, rep: string)
    requires |pat| > 0 && |pat| <= |s| && !OccursAt(s, pat, 0)
    ensures Replace(s, pat, rep) == [s[0]] + Replace(s[1..], pat, rep)
  {
    assert s[0..|pat|] == s[..|pat|];
  }

  /** Dropping the first character keeps a first occurrence first. */
  lemma NoEarlierOccurrenceInTail(s: string, pat: string, j: nat)
    requires |pat| > 0 && j > 0
    requires OccursAt(s, pat, j)
    requires forall i :: 0 <= i < j ==> !OccursAt(s, pat, i)
    ensures OccursAt(s[1..], pat, j - 1)
    ensures forall i :: 0 <= i < j - 1 ==> !OccursAt(s[1..], pat, i)
  {
    var t := s[1..];
    assert t[j - 1..j - 1 + |pat|] == s[j..j + |pat|];
    forall i | 0 <= i < j - 1 ensures !OccursAt(t, pat, i) {
      assert !OccursAt(s, pat, i + 1);
      if i + |pat| <= |t| {
        assert t[i..i + |pat|] == s[i + 1..i + 1 + |pat|];
      }
    }
  }

  /** With no occurrence of the pattern the text is returned unchanged. */
  lemma {:induction false} ReplaceAbsent(s: string, pat: string, rep: string)
    requires |pat| > 0
    requires !Occurs(s, pat)
    ensures Replace(s, pat, rep) == s
    decreases |s|
  {
    if |s| >= |pat| {
      assert !OccursAt(s, pat, 0);
      assert !Occurs(s[1..], pat) by {
        forall j | OccursAt(s[1..], pat, j) ensures OccursAt(s, pat, j + 1) {
          assert s[1..][j..j + |pat|] == s[j + 1..j + 1 + |pat|];
        }
      }
      ReplaceAbsent(s[1..], pat, rep);
      assert s == [s[0]] + s[1..];
    }
  }

  /** A text without the pattern's first character holds no occurrence of it. */
  lemma AbsentWithoutFirstChar(s: string, pat: string)
    requires |pat| > 0 && pat[0] !in s
    ensures !Occurs(s, pat)
  {
  }

  /** Replacing a pattern by itself changes nothing. */
  lemma {:induction false} ReplaceBySelf(s: string, pat: string)
    requires |pat| > 0
    ensures Replace(s, pat, pat) == s
    decreases |s|
  {
    if |s| >= |pat| {
      if s[..|pat|] == pat {
        ReplaceBySelf(s[|pat|..], pat);
        assert s == s[..|pat|] + s[|pat|..];
      } else {
        ReplaceBySelf(s[1..], pat);
        assert s == [s[0]] + s[1..];
      }
    }
  }

  /**
   * Every occurrence is replaced: when the replacement is non-empty and shares
   * no character with the pattern, no occurrence of the pattern is left.
   */
  lemma {:induction false} ReplaceLeavesNoOccurrence(s: string, pat: string, rep: string)
    requires |pat| > 0 && |rep| > 0
    requires forall c :: c in rep ==> c !in pat
    ensures !Occurs(Replace(s, pat, rep), pat)
    decreases |s|
  {
    var out := Replace(s, pat, rep);
    if |s| < |pat| {
      assert |out| < |pat|;
    } else if s[..|pat|] == pat {
      var rest := Replace(s[|pat|..], pat, rep);
      ReplaceLeavesNoOccurrence(s[|pat|..], pat, rep);
      forall j | 0 <= j ensures !OccursAt(out, pat, j) {
        if j < |rep| {
          NoOccurrenceTouchingReplacement(pat, rep, rest, j);
        } else {
          OccursAfterPrefix(rep, rest, pat, j);
        }
      }
    } else {
      var rest := Replace(s[1..], pat, rep);
      ReplaceLeavesNoOccurrence(s[1..], pat, rep);
      forall j | 0 <= j ensures !OccursAt(out, pat, j) {
        if j == 0 {
          NoOccurrenceAtCopiedHead(s, pat, rep);
        } else {
          OccursAfterPrefix([s[0]], rest, pat, j);
        }
      }
    }
  }

  /** An occurrence past a prefix is an occurrence in what follows the prefix. */
  lemma OccursAfterPrefix(x: string, y: string, pat: string, j: int)
    requires j >= |x|
    ensures OccursAt(x + y, pat, j) <==> OccursAt(y, pat, j - |x|)
  {
    if j + |pat| <= |x + y| {
      assert (x + y)[j..j + |pat|] == y[j - |x|..j - |x| + |pat|];
    }
  }

  /** No occurrence of the pattern starts inside a replacement text it shares no character with. */
  lemma NoOccurrenceTouchingReplacement(pat: string, rep: string, rest: string, j: int)
    requires |pat| > 0
    requires forall c :: c in rep ==> c !in pat
    requires 0 <= j < |rep|
    ensures !OccursAt(rep + rest, pat, j)
  {
    assert (rep + rest)[j] == rep[j] && rep[j] in rep;
    assert pat[0] in pat;
    if j + |pat| <= |rep + rest| {
      assert (rep + rest)[j..j + |pat|][0] == (rep + rest)[j];
    }
  }

  /** When the scan copies the first character, no occurrence starts there in the output. */
  lemma NoOccurrenceAtCopiedHead(s: string, pat: string, rep: string)
    requires |pat| > 0 && |rep| > 0
    requires forall c :: c in rep ==> c !in pat
    requires |s| >= |pat| && s[..|pat|] != pat
    ensures !OccursAt([s[0]] + Replace(s[1..], pat, rep), pat, 0)
  {
    var rest := Replace(s[1..], pat, rep);
    var out := [s[0]] + rest;
    var k := |pat| - 1;
    if k <= |rest| {
      ReplacePrefixIsCopied(s[1..], pat, rep, k);
      if i :| 0 <= i < k && rest[i] !in pat {
        assert out[i + 1] == rest[i];
        assert pat[i + 1] in pat;
        assert out[..|pat|][i + 1] != pat[i + 1];
      } else {
        assert s[..|pat|] == [s[0]] + s[1..][..k];
        assert out[..|pat|] == [s[0]] + rest[..k];
      }
    }
  }

  /**
   * A prefix of the output is copied from the input unless it holds a
   * character of the replacement (one that is no pattern character).
   */
  lemma {:induction false} ReplacePrefixIsCopied(t: string, pat: string, rep: string, k: nat)
    requires |pat| > 0 && |rep| > 0
    requires forall c :: c in rep ==> c !in pat
    requires k <= |Replace(t, pat, rep)|
    ensures (exists i :: 0 <= i < k && Replace(t, pat, rep)[i] !in pat)
         || (k <= |t| && Replace(t, pat, rep)[..k] == t[..k])
    decreases |t|
  {
    var out := Replace(t, pat, rep);
    if k > 0 && |t| >= |pat| {
      if t[..|pat|] == pat {
        assert out[0] == rep[0] && rep[0] in rep;
      } else {
        var rest := Replace(t[1..], pat, rep);
        assert out == [t[0]] + rest;
        ReplacePrefixIsCopied(t[1..], pat, rep, k - 1);
        if i :| 0 <= i < k - 1 && rest[i] !in pat {
          assert out[i + 1] == rest[i];
        } else {
          assert out[..k] == [t[0]] + rest[..k - 1];
          assert t[..k] == [t[0]] + t[1..][..k - 1];
        }
      }
    }
  }

  /** A leading stretch holding no first character of the pattern is copied as it is. */
  lemma {:induction false} ReplaceKeepsLeading(a: string, b: string, pat: string, rep: string)
    requires |pat| > 0
    requires pat[0] !in a
    ensures Replace(a + b, pat, rep) == a + Replace(b, pat, rep)
    decreases |a|
  {
    if a == [] {
      assert a + b == b;
    } else {
      var s := a + b;
      if |s| < |pat| {
        assert |b| < |pat|;
      } else {
        assert s[..|pat|][0] == a[0];
        assert s[1..] == a[1..] + b;
        ReplaceKeepsLeading(a[1..], b, pat, rep);
        assert a == [a[0]] + a[1..];
      }
    }
  }

  /** An occurrence at the very start is replaced, and the scan resumes after it. */
  lemma ReplaceAtStart(b: string, pat: string, rep: string)
    requires |pat| > 0
    ensures Replace(pat + b, pat, rep) == rep + Replace(b, pat, rep)
  {
    assert (pat + b)[..|pat|] == pat;
    assert (pat + b)[|pat|..] == b;
  }

  /** A start that is not an occurrence is copied as one character. */
  lemma ReplaceSkipsMismatch(a: string, b: string, pat: string, rep: string)
    requires |pat| > 0 && |pat| <= |a|
    requires a[..|pat|] != pat
    ensures Replace(a + b, pat, rep) == [a[0]] + Replace(a[1..] + b, pat, rep)
  {
    assert (a + b)[..|pat|] == a[..|pat|];
    assert (a + b)[1..] == a[1..] + b;
  }

  /**
   * A piece that starts like a different token and holds no other first
   * character of the pattern is copied as it is.
   */
  lemma ReplaceSkipsToken(t: string, b: string, pat: string, rep: string)
    requires |pat| > 0 && |pat| <= |t|
    requires t[..|pat|] != pat && pat[0] !in t[1..]
    ensures Replace(t + b, pat, rep) == t + Replace(b, pat, rep)
  {
    ReplaceSkipsMismatch(t, b, pat, rep);
    ReplaceKeepsLeading(t[1..], b, pat, rep);
    assert t == [t[0]] + t[1..];
  }

  /* ---------------------------------------------------------------------- */
  /* str(n)                                                                 */
  /* ---------------------------------------------------------------------- */

  predicate IsDigit(c: char)
  {
    '0' <= c <= '9'
  }

  function DigitChar(d: nat): (c: char)
    requires d < 10
    ensures IsDigit(c)
  {
    ('0' as int + d) as char
  }

  function DigitValue(c: char): (d: nat)
    requires IsDigit(c)
    ensures d < 10
  {
    (c as int - '0' as int) as nat
  }

  /** `str(n)` for a natural number: its decimal digits, no sign, no leading zero. */
  function NatToDecimal(n: nat): (s: string)
    ensures |s| >= 1
    ensures forall i :: 0 <= i < |s| ==> IsDigit(s[i])
    ensures s[0] == '0' ==> n == 0
    decreases n
  {
    if n < 10 then [DigitChar(n)]
    else NatToDecimal(n / 10) + [DigitChar(n % 10)]
  }

  /** The number a string of decimal digits denotes. */
  function DecimalValue(s: string): nat
    requires forall i :: 0 <= i < |s| ==> IsDigit(s[i])
    decreases |s|
  {
    if s == [] then 0
    else DecimalValue(s[..|s| - 1]) * 10 + DigitValue(s[|s| - 1])
  }

  /** Reading back the decimal text of a number gives the number. */
  lemma {:induction false} DecimalRoundTrip(n: nat)
    ensures DecimalValue(NatToDecimal(n)) == n
    decreases n
  {
    var s := NatToDecimal(n);
    if n < 10 {
      assert DigitValue(DigitChar(n)) == n;
      assert s[..0] == [];
    } else {
      DecimalRoundTrip(n / 10);
      assert s[..|s| - 1] == NatToDecimal(n / 10);
      assert DigitValue(DigitChar(n % 10)) == n % 10;
    }
  }

  /** The decimal text of a number holds neither a brace nor a backslash. */
  lemma DecimalHasNoMarkup(n: nat)
    ensures '{' !in NatToDecimal(n) && '\\' !in NatToDecimal(n)
  {
    var s := NatToDecimal(n);
    assert forall i :: 0 <= i < |s| ==> s[i] != '{' && s[i] != '\\' by {
      forall i | 0 <= i < |s| ensures s[i] != '{' && s[i] != '\\' {
        assert IsDigit(s[i]);
      }
    }
  }
}

/** `generate_temp_password`: ten characters with at least one lower-case
    letter, one upper-case letter, one digit and one symbol, shuffled in place.
    The random draws are inputs. */
module AuthTempPassword {

  const Lowercase: string := "abcdefghijklmnopqrstuvwxyz"
  const Uppercase: string := "ABCDEFGHIJKLMNOPQRSTUVWXYZ"
  const Digits: string := "0123456789"
  const Symbols: string := "@$!%*?&"
  /** `ascii_letters + digits + "@$!%*?&"`. */
  const Alphabet: string := Lowercase + Uppercase + Digits + Symbols

  const TempPasswordLength: nat := 10
  /** The fixed password returned while the test runner is loaded. */
  const TestPassword: string := "TestTest2!"

  /** The random draws: one index per class, six indexes into the whole
      alphabet, and for each position i the index `randbelow(i + 1)` that the
      shuffle swaps it with (position 0 is never drawn for). */
  datatype Draws = Draws(lower: nat, upper: nat, digit: nat, symbol: nat, others: seq<nat>, swaps: seq<nat>)

  predicate DrawsInRange(d: Draws) {
    && d.lower < |Lowercase| && d.upper < |Uppercase| && d.digit < |Digits| && d.symbol < |Symbols|
    && |d.others| == TempPasswordLength - 4
    && (forall k :: 0 <= k < |d.others| ==> d.others[k] < |Alphabet|)
    && |d.swaps| == TempPasswordLength
    && (forall i :: 0 <= i < |d.swaps| ==> d.swaps[i] <= i)
  }

  /** The composition the generator promises. */
  predicate IsStrongTempPassword(p: string) {
    && |p| == TempPasswordLength
    && (exists i :: 0 <= i < |p| && p[i] in Lowercase)
    && (exists i :: 0 <= i < |p| && p[i] in Uppercase)
    && (exists i :: 0 <= i < |p| && p[i] in Digits)
    && (exists i :: 0 <= i < |p| && p[i] in Symbols)
    && (forall i :: 0 <= i < |p| ==> p[i] in Alphabet)
  }

  /** The fixed test password has the same composition. */
  lemma TestPasswordIsStrong()
    ensures IsStrongTempPassword(TestPassword)
  {
    assert TestPassword[1] in Lowercase;
    assert TestPassword[0] in Uppercase;
    assert TestPassword[8] in Digits;
    assert TestPassword[9] in Symbols;
  }

  /** `random.shuffle`: for i from the last index down to 1, swap a[i] with a[j], j <= i. */
  method Shuffle(a: array<char>, swaps: seq<nat>)
    requires |swaps| == a.Length
    requires forall i :: 0 <= i < |swaps| ==> swaps[i] <= i
    modifies a
    ensures multiset(a[..]) == old(multiset(a[..]))
  {
    var i := a.Length - 1;
    while i >= 1
      invariant -1 <= i < a.Length
      invariant multiset(a[..]) == old(multiset(a[..]))
    {
      var j := swaps[i];
      a[i], a[j] := a[j], a[i];
      i := i - 1;
    }
  }

  /** `password_list` before the shuffle: one character of each class, then
      six from the whole alphabet. */
  function Picked(draws: Draws): (p: string)
    requires DrawsInRange(draws)
    ensures |p| == TempPasswordLength
    ensures p[0] in Lowercase && p[1] in Uppercase && p[2] in Digits && p[3] in Symbols
    ensures forall k :: 4 <= k < |p| ==> p[k] in Alphabet
  {
    [Lowercase[draws.lower], Uppercase[draws.upper], Digits[draws.digit], Symbols[draws.symbol]]
    + seq(|draws.others|, k requires 0 <= k < |draws.others| => Alphabet[draws.others[k]])
  }

  method GenerateTempPassword(underTest: bool, draws: Draws) returns (password: string)
    requires DrawsInRange(draws)
    ensures underTest ==> password == TestPassword
    ensures IsStrongTempPassword(password)
  {
    if underTest {
      TestPasswordIsStrong();
      return TestPassword;
    }
    var picked := Picked(draws);
    var a := new char[TempPasswordLength](k requires 0 <= k < TempPasswordLength reads {} => picked[k]);
    assert a[..] == picked;
    Shuffle(a, draws.swaps);
    password := a[..];
    ContentsPreserved(picked, password);
  }

  /** The composition is a property of the multiset of characters, which the
      shuffle keeps. */
  lemma ContentsPreserved(picked: string, shuffled: string)
    requires |picked| == TempPasswordLength && multiset(picked) == multiset(shuffled)
    requires picked[0] in Lowercase && picked[1] in Uppercase && picked[2] in Digits && picked[3] in Symbols
    requires forall k :: 4 <= k < |picked| ==> picked[k] in Alphabet
    ensures IsStrongTempPassword(shuffled)
  {
    assert |shuffled| == |multiset(shuffled)| == |multiset(picked)| == |picked|;
    ClassSurvives(picked, shuffled, 0, Lowercase);
    ClassSurvives(picked, shuffled, 1, Uppercase);
    ClassSurvives(picked, shuffled, 2, Digits);
    ClassSurvives(picked, shuffled, 3, Symbols);
    ClassesInAlphabet(picked[0], picked[1], picked[2], picked[3]);
    forall k | 0 <= k < |picked| ensures picked[k] in Alphabet {
      if k == 0 {
        assert picked[0] in Alphabet;
      } else if k == 1 {
        assert picked[1] in Alphabet;
      } else if k == 2 {
        assert picked[2] in Alphabet;
      } else if k == 3 {
        assert picked[3] in Alphabet;
      }
    }
    StaysInAlphabet(picked, shuffled);
  }

  lemma StaysInAlphabet(picked: string, shuffled: string)
    requires multiset(picked) == multiset(shuffled)
    requires forall k :: 0 <= k < |picked| ==> picked[k] in Alphabet
    ensures forall i :: 0 <= i < |shuffled| ==> shuffled[i] in Alphabet
  {
    forall i | 0 <= i < |shuffled| ensures shuffled[i] in Alphabet {
      assert shuffled[i] in multiset(picked);
      var k :| 0 <= k < |picked| && picked[k] == shuffled[i];
    }
  }

  lemma ClassesInAlphabet(lower: char, upper: char, digit: char, symbol: char)
    requires lower in Lowercase && upper in Uppercase && digit in Digits && symbol in Symbols
    ensures lower in Alphabet && upper in Alphabet && digit in Alphabet && symbol in Alphabet
  {
    InConcat(lower, Lowercase, Uppercase);
    InConcat(upper, Lowercase, Uppercase);
    InConcat(lower, Lowercase + Uppercase, Digits);
    InConcat(upper, Lowercase + Uppercase, Digits);
    InConcat(digit, Lowercase + Uppercase, Digits);
    InConcat(lower, Lowercase + Uppercase + Digits, Symbols);
    InConcat(upper, Lowercase + Uppercase + Digits, Symbols);
    InConcat(digit, Lowercase + Uppercase + Digits, Symbols);
    InConcat(symbol, Lowercase + Uppercase + Digits, Symbols);
  }

  lemma InConcat(c: char, a: string, b: string)
    ensures c in a || c in b ==> c in a + b
  {
    if c in a {
      var i :| 0 <= i < |a| && a[i] == c;
      assert (a + b)[i] == c;
    } else if c in b {
      var i :| 0 <= i < |b| && b[i] == c;
      assert (a + b)[|a| + i] == c;
    }
  }

  /** A character of a class at some position is, after a permutation, at
      some position still. */
  lemma ClassSurvives(picked: string, shuffled: string, k: nat, chars: string)
    requires k < |picked| && multiset(picked) == multiset(shuffled) && picked[k] in chars
    ensures exists i :: 0 <= i < |shuffled| && shuffled[i] in chars
  {
    assert picked[k] in multiset(shuffled);
    var i :| 0 <= i < |shuffled| && shuffled[i] == picked[k];
  }
}

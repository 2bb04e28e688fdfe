/** Names of forEach iterations: printing "base[index]" and parsing it back
    (foreach.go). */
module Names {
  predicate IsDigit(c: char) {
    '0' <= c <= '9'
  }

  function DigitChar(d: nat): char
    requires d < 10
  {
    ('0' as int + d) as char
  }

  function DigitValue(c: char): nat
    requires IsDigit(c)
  {
    c as int - '0' as int
  }

  // Decimal printing of a non-negative number.
  function Itoa(n: nat): (s: string)
    ensures s != [] && forall c | c in s :: IsDigit(c)
  {
    if n < 10 then [DigitChar(n)] else Itoa(n / 10) + [DigitChar(n % 10)]
  }

  function FormatInt(i: int): string {
    if i < 0 then "-" + Itoa(-i) else Itoa(i)
  }

  ghost predicate Digits(s: string) {
    forall c | c in s :: IsDigit(c)
  }

  ghost function Atoi(s: string): nat
    requires Digits(s)
  {
    if s == [] then 0
    else
      assert s[|s| - 1] in s;
      Atoi(s[..|s| - 1]) * 10 + DigitValue(s[|s| - 1])
  }

  lemma {:induction false} AtoiItoa(n: nat)
    ensures Atoi(Itoa(n)) == n
  {
    if n >= 10 {
      AtoiItoa(n / 10);
      assert Itoa(n)[..|Itoa(n)| - 1] == Itoa(n / 10);
    } else {
      assert Itoa(n)[..0] == [];
    }
  }

  lemma ItoaInjective(m: nat, n: nat)
    requires Itoa(m) == Itoa(n)
    ensures m == n
  {
    AtoiItoa(m);
    AtoiItoa(n);
  }

  function CreateIterationName(base: string, index: int): string {
    base + "[" + FormatInt(index) + "]"
  }

  // name is base, '[', some digits with value index, ']'.
  ghost predicate IsIteration(name: string, base: string, digits: string) {
    base != "" && digits != "" && Digits(digits) && name == base + "[" + digits + "]"
  }

  // The opening bracket of the trailing "[digits]" is at k.
  ghost predicate BracketAt(name: string, k: nat) {
    && 0 < k < |name| - 2 && name[k] == '[' && name[|name| - 1] == ']'
    && forall i | k < i < |name| - 1 :: IsDigit(name[i])
  }

  lemma BracketIteration(name: string, k: nat)
    requires BracketAt(name, k)
    ensures IsIteration(name, name[..k], name[k + 1..|name| - 1])
  {
  }

  lemma IterationBracket(name: string, base: string, digits: string)
    requires IsIteration(name, base, digits)
    ensures BracketAt(name, |base|) && base == name[..|base|] && digits == name[|base| + 1..|name| - 1]
  {
    forall i | |base| < i < |name| - 1 ensures IsDigit(name[i]) {
      assert name[i] == digits[i - |base| - 1];
    }
  }

  lemma BracketUnique(name: string, j: nat, k: nat)
    requires BracketAt(name, j) && BracketAt(name, k)
    ensures j == k
  {
    assert !IsDigit('[');
  }

  method IsForEachIteration(name: string) returns (found: bool)
    ensures found <==> exists k :: BracketAt(name, k)
  {
    var n := |name|;
    if n < 4 || name[n - 1] != ']' {
      return false;
    }
    var bracketIdx, digitCount := -1, 0;
    var i := n - 2;
    while i >= 0
      invariant -1 <= i <= n - 2 && digitCount == n - 2 - i && bracketIdx == -1
      invariant forall j | i < j < n - 1 :: IsDigit(name[j])
    {
      if name[i] == '[' {
        bracketIdx := i;
        break;
      }
      if name[i] < '0' || name[i] > '9' {
        return false;
      }
      digitCount := digitCount + 1;
      i := i - 1;
    }
    found := bracketIdx > 0 && digitCount > 0;
    if found { assert BracketAt(name, bracketIdx); }
  }

  method ParseIterationName(name: string) returns (base: string, index: int, ok: bool)
    ensures ok <==> exists b, d :: IsIteration(name, b, d)
    ensures forall b, d | IsIteration(name, b, d) :: base == b && index == Atoi(d)
    ensures !ok ==> base == "" && index == -1
  {
    var found := IsForEachIteration(name);
    if !found {
      forall b, d ensures !IsIteration(name, b, d) {
        if IsIteration(name, b, d) { IterationBracket(name, b, d); }
      }
      return "", -1, false;
    }
    ghost var k: nat :| BracketAt(name, k);
    var n := |name|;
    var bracketIdx := n - 2;
    while name[bracketIdx] != '['
      invariant k <= bracketIdx <= n - 2
      decreases bracketIdx
    {
      bracketIdx := bracketIdx - 1;
    }
    base := name[..bracketIdx];
    var indexStr := name[bracketIdx + 1..n - 1];
    assert bracketIdx == k by {
      assert name[bracketIdx] == '[' && !IsDigit('[');
    }
    BracketIteration(name, k);
    OneReading(name, k);
    hide *;
    index := ParseDigits(indexStr);
    ok := true;
    assert IsIteration(name, base, indexStr);
  }

  // A name has no reading but the one at its bracket.
  lemma OneReading(name: string, k: nat)
    requires BracketAt(name, k)
    ensures forall b, d | IsIteration(name, b, d) :: b == name[..k] && d == name[k + 1..|name| - 1]
    ensures Digits(name[k + 1..|name| - 1])
  {
    BracketIteration(name, k);
    forall b, d | IsIteration(name, b, d) ensures b == name[..k] && d == name[k + 1..|name| - 1] {
      IterationBracket(name, b, d);
      BracketUnique(name, |b|, k);
    }
  }

  method ParseDigits(indexStr: string) returns (index: nat)
    requires Digits(indexStr)
    ensures index == Atoi(indexStr)
  {
    index := 0;
    var i := 0;
    while i < |indexStr|
      invariant 0 <= i <= |indexStr| && index == Atoi(indexStr[..i])
    {
      assert indexStr[i] in indexStr;
      assert indexStr[..i + 1][..i] == indexStr[..i];
      index := index * 10 + DigitValue(indexStr[i]);
      i := i + 1;
    }
    assert indexStr[..i] == indexStr;
  }

  // Parsing undoes printing for every non-empty base and index, and only there.
  lemma ParseInvertsCreate(base: string, index: int)
    ensures base != "" && index >= 0 <==>
            exists d :: IsIteration(CreateIterationName(base, index), base, d) && Atoi(d) == index
  {
    var name := CreateIterationName(base, index);
    if base != "" && index >= 0 {
      AtoiItoa(index);
      assert IsIteration(name, base, Itoa(index));
    }
  }

  // A created name parses to what it was created from, exactly for a non-empty
  // base and an index that is not negative.
  method ParseCreated(base: string, index: int) returns (b: string, i: int, ok: bool)
    ensures ok <==> base != "" && index >= 0
    ensures ok ==> b == base && i == index
  {
    var name := CreateIterationName(base, index);
    b, i, ok := ParseIterationName(name);
    forall b', d' | IsIteration(name, b', d') ensures base != "" && index >= 0 {
      IterationBracket(name, b', d');
      CreatedBracket(base, index, |b'|);
    }
    ParseInvertsCreate(base, index);
  }

  // The only bracket that can open the index of a created name is the one
  // printed.
  lemma CreatedBracket(base: string, index: int, k: nat)
    requires BracketAt(CreateIterationName(base, index), k)
    ensures k == |base| && index >= 0
  {
    var name, text := CreateIterationName(base, index), FormatInt(index);
    assert name == base + "[" + text + "]" && name[|base|] == '[';
    assert forall i | 0 <= i < |text| :: name[|base| + 1 + i] == text[i];
    TextHasNoBracket(index);
    forall i | |base| < i < |name| ensures name[i] != '[' {
      if i < |name| - 1 {
        assert name[i] == text[i - |base| - 1] && text[i - |base| - 1] in text;
      }
    }
    assert name[|base| + 1] == text[0];
  }

  lemma TextHasNoBracket(index: int)
    ensures '[' !in FormatInt(index) && |FormatInt(index)| >= 1
    ensures index < 0 ==> FormatInt(index)[0] == '-'
  {
    assert !IsDigit('[');
  }

  lemma BracketInLonger(base: string, rest: string, base': string, rest': string)
    requires base + "[" + rest == base' + "[" + rest' && |base| < |base'|
    ensures '[' in base'
  {
    assert base'[|base|] == (base + "[" + rest)[|base|];
  }

  // Iteration names of distinct bases or indices differ, given that base names
  // hold no bracket.
  lemma IterationNamesDistinct(base: string, i: nat, base': string, j: nat)
    requires '[' !in base && '[' !in base'
    requires CreateIterationName(base, i) == CreateIterationName(base', j)
    ensures base == base' && i == j
  {
    var name := CreateIterationName(base, i);
    assert name == base + "[" + (Itoa(i) + "]") && name == base' + "[" + (Itoa(j) + "]");
    if |base| < |base'| { BracketInLonger(base, Itoa(i) + "]", base', Itoa(j) + "]"); }
    if |base'| < |base| { BracketInLonger(base', Itoa(j) + "]", base, Itoa(i) + "]"); }
    assert base == name[..|base|] && base' == name[..|base'|];
    assert Itoa(i) == name[|base| + 1..|name| - 1] && Itoa(j) == name[|base'| + 1..|name| - 1];
    ItoaInjective(i, j);
  }
}

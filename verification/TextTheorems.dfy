/** The text operations, against what they are for. */
module TextTheorems {
  import opened Text

  predicate AllSpaces(s: string) {
    forall i :: 0 <= i < |s| ==> IsSpace(s[i])
  }

  lemma {:induction false} StartIsTrimmed(s: string) returns (spaces: string)
    ensures s == spaces + TrimStart(s) && AllSpaces(spaces)
    ensures TrimStart(s) == "" || !IsSpace(TrimStart(s)[0])
  {
    spaces := "";
    if s != [] && IsSpace(s[0]) {
      var rest := StartIsTrimmed(s[1..]);
      spaces := [s[0]] + rest;
      assert s == [s[0]] + s[1..];
    }
  }

  lemma {:induction false} EndIsTrimmed(s: string) returns (spaces: string)
    ensures s == TrimEnd(s) + spaces && AllSpaces(spaces)
    ensures TrimEnd(s) == "" || !IsSpace(TrimEnd(s)[|TrimEnd(s)| - 1])
    decreases |s|
  {
    spaces := "";
    if s != [] && IsSpace(s[|s| - 1]) {
      var rest := EndIsTrimmed(s[..|s| - 1]);
      spaces := rest + [s[|s| - 1]];
      assert s == s[..|s| - 1] + [s[|s| - 1]];
    }
  }

  /** Trimming takes the spaces from both ends, all of them and nothing else. */
  lemma TrimTakesTheSpaces(s: string) returns (before: string, after: string)
    ensures s == before + Trim(s) + after && AllSpaces(before) && AllSpaces(after)
    ensures Trim(s) == "" || (!IsSpace(Trim(s)[0]) && !IsSpace(Trim(s)[|Trim(s)| - 1]))
  {
    before := StartIsTrimmed(s);
    after := EndIsTrimmed(TrimStart(s));
    if Trim(s) != "" {
      assert TrimStart(s)[0] == Trim(s)[0];
    }
  }

  /** One is the other, or the same letter of the alphabet in the other case. */
  predicate SameLetter(a: char, b: char) {
    a == b || ('A' <= a <= 'Z' && b as int == a as int + 32) || ('A' <= b <= 'Z' && a as int == b as int + 32)
  }

  /** Texts are equal but for case exactly when they are letter for letter the same but for case. */
  lemma EqualButForCaseExactlyWhen(a: string, b: string)
    ensures EqIgnoreAsciiCase(a, b) <==> |a| == |b| && forall i :: 0 <= i < |a| ==> SameLetter(a[i], b[i])
  {
    if |a| == |b| {
      forall i | 0 <= i < |a|
        ensures Lower(a[i]) == Lower(b[i]) <==> SameLetter(a[i], b[i])
      {
        LowerIsSameLetter(a[i], b[i]);
      }
    }
  }

  lemma LowerIsSameLetter(a: char, b: char)
    ensures Lower(a) == Lower(b) <==> SameLetter(a, b)
  {}
}

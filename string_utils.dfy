/** The string helpers: in-place ltrim/rtrim/trim, their by-value `_copy` variants, and
    ends_with. Strings are sequences of characters; whitespace is what `std::isspace` accepts in
    the "C" locale. */
module StringUtils {

  /** `std::isspace` in the "C" locale: space, \t, \n, \v, \f and \r. */
  predicate IsSpace(c: char) {
    c == ' ' || c == '\t' || c == '\n' || c == '\U{000B}' || c == '\U{000C}' || c == '\r'
  }

  /** `ltrim_copy`: the input without its maximal whitespace prefix. The result is a suffix of
      the input that does not start with whitespace; LTrimRemovesOnlySpace shows that
      everything removed is whitespace. */
  function LTrimCopy(s: string): (r: string)
    ensures |r| <= |s| && r == s[|s| - |r|..]
    ensures r != [] ==> !IsSpace(r[0])
  {
    if s == [] || !IsSpace(s[0]) then s else LTrimCopy(s[1..])
  }

  /** ltrim removes whitespace only. */
  lemma {:induction false} LTrimRemovesOnlySpace(s: string)
    ensures forall i :: 0 <= i < |s| - |LTrimCopy(s)| ==> IsSpace(s[i])
  {
    if s != [] && IsSpace(s[0]) {
      LTrimRemovesOnlySpace(s[1..]);
      forall i | 1 <= i < |s| - |LTrimCopy(s)| ensures IsSpace(s[i]) {
        assert s[i] == s[1..][i - 1];
      }
    }
  }

  /** `rtrim_copy`: the input without its maximal whitespace suffix. The result is a prefix of
      the input that does not end with whitespace; RTrimRemovesOnlySpace shows that everything
      removed is whitespace. */
  function RTrimCopy(s: string): (r: string)
    ensures |r| <= |s| && r == s[..|r|]
    ensures r != [] ==> !IsSpace(r[|r| - 1])
  {
    if s == [] || !IsSpace(s[|s| - 1]) then s else RTrimCopy(s[..|s| - 1])
  }

  /** rtrim removes whitespace only. */
  lemma {:induction false} RTrimRemovesOnlySpace(s: string)
    ensures forall i :: |RTrimCopy(s)| <= i < |s| ==> IsSpace(s[i])
  {
    if s != [] && IsSpace(s[|s| - 1]) {
      RTrimRemovesOnlySpace(s[..|s| - 1]);
      forall i | |RTrimCopy(s)| <= i < |s| - 1 ensures IsSpace(s[i]) {
        assert s[i] == s[..|s| - 1][i];
      }
    }
  }

  /** `trim_copy`: ltrim, then rtrim. */
  function TrimCopy(s: string): (r: string)
    ensures |r| <= |s|
    ensures r != [] ==> !IsSpace(r[0]) && !IsSpace(r[|r| - 1])
  {
    RTrimCopy(LTrimCopy(s))
  }

  /** `ltrim`: find the first non-space character and erase everything before it. */
  method LTrim(s: string) returns (r: string)
    ensures r == LTrimCopy(s)
  {
    var i := 0;
    while i < |s| && IsSpace(s[i])
      invariant 0 <= i <= |s|
      invariant LTrimCopy(s[i..]) == LTrimCopy(s)
    {
      assert s[i..][1..] == s[i + 1..];
      i := i + 1;
    }
    r := s[i..];
  }

  /** `rtrim`: find the last non-space character from the back and erase everything after it. */
  method RTrim(s: string) returns (r: string)
    ensures r == RTrimCopy(s)
  {
    var j := |s|;
    assert s[..j] == s;
    while j > 0 && IsSpace(s[j - 1])
      invariant 0 <= j <= |s|
      invariant RTrimCopy(s[..j]) == RTrimCopy(s)
    {
      assert s[..j][..j - 1] == s[..j - 1];
      j := j - 1;
    }
    assert s[..j] == s[..j][..j];
    r := s[..j];
  }

  /** `trim`: ltrim then rtrim on the same string. */
  method Trim(s: string) returns (r: string)
    ensures r == TrimCopy(s)
  {
    r := LTrim(s);
    r := RTrim(r);
  }

  /** The trimmed string is one contiguous piece of the input, starting right after the
      leading whitespace. */
  lemma TrimIsSubstring(s: string)
    ensures var k := |s| - |LTrimCopy(s)|;
      k + |TrimCopy(s)| <= |s| && TrimCopy(s) == s[k..k + |TrimCopy(s)|]
  {
    PrefixOfSuffix(s, LTrimCopy(s), TrimCopy(s));
  }

  /** A prefix of a suffix is a slice. */
  lemma PrefixOfSuffix(s: string, l: string, r: string)
    requires |l| <= |s| && l == s[|s| - |l|..] && |r| <= |l| && r == l[..|r|]
    ensures var k := |s| - |l|;
      k + |r| <= |s| && r == s[k..k + |r|]
  {
  }

  /** An input made only of whitespace trims to the empty string. */
  lemma {:induction false} AllWhitespaceTrimsToEmpty(s: string)
    requires forall i :: 0 <= i < |s| ==> IsSpace(s[i])
    ensures LTrimCopy(s) == [] && TrimCopy(s) == []
  {
    if s != [] {
      AllWhitespaceTrimsToEmpty(s[1..]);
    }
  }

  /** A string that neither starts nor ends with whitespace is left alone by trim. */
  lemma TrimOfTrimmed(s: string)
    requires s != [] ==> !IsSpace(s[0]) && !IsSpace(s[|s| - 1])
    ensures LTrimCopy(s) == s && RTrimCopy(s) == s && TrimCopy(s) == s
  {
  }

  /** trim is idempotent. */
  lemma TrimIdempotent(s: string)
    ensures TrimCopy(TrimCopy(s)) == TrimCopy(s)
  {
    TrimOfTrimmed(TrimCopy(s));
  }

  /** `ends_with(str, ending)`: false when the ending is longer, otherwise the comparison of the
      last |ending| characters with the ending. */
  function EndsWith(str: string, ending: string): (b: bool)
    ensures |ending| > |str| ==> !b
    ensures ending == [] ==> b
  {
    if |str| >= |ending| then str[|str| - |ending|..] == ending else false
  }

  /** ends_with holds exactly when the ending is a suffix: the string is some prefix followed by
      the ending. */
  lemma EndsWithIffSuffix(str: string, ending: string)
    ensures EndsWith(str, ending) <==> exists p: string :: p + ending == str
  {
    if EndsWith(str, ending) {
      var p := str[..|str| - |ending|];
      assert p + ending == str;
    }
    if exists p: string :: p + ending == str {
      var p: string :| p + ending == str;
      assert str[|str| - |ending|..] == ending;
    }
  }
}

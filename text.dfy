/**
  Go's `strings.Trim(s, " ")`: removes every leading and every trailing
  space character, and nothing else (tabs, carriage returns and newlines
  stay where they are).
 */
module Text {

  /** No space at either end of `s`. */
  predicate NoEdgeSpace(s: string)
  {
    |s| > 0 ==> s[0] != ' ' && s[|s| - 1] != ' '
  }

  /** Every character of `s` is a space. */
  predicate AllSpaces(s: string)
  {
    forall k :: 0 <= k < |s| ==> s[k] == ' '
  }

  /** Drops the leading spaces: what is kept is no longer than `s` and
      does not start with a space. */
  function TrimLeft(s: string): (r: string)
    ensures |r| <= |s|
    ensures |r| > 0 ==> r[0] != ' ' && r[|r| - 1] == s[|s| - 1]
    decreases |s|
  {
    if |s| > 0 && s[0] == ' ' then TrimLeft(s[1..]) else s
  }

  /** Drops the trailing spaces: what is kept is no longer than `s`, starts
      where `s` starts and does not end with a space. */
  function TrimRight(s: string): (r: string)
    ensures |r| <= |s|
    ensures |r| > 0 ==> r[|r| - 1] != ' ' && r[0] == s[0]
    decreases |s|
  {
    if |s| > 0 && s[|s| - 1] == ' ' then TrimRight(s[..|s| - 1]) else s
  }

  /** `TrimLeft` keeps a suffix of `s`, everything it drops is a space, and
      what it keeps does not start with one. */
  lemma {:induction false} TrimLeftSpec(s: string)
    ensures |TrimLeft(s)| <= |s| && TrimLeft(s) == s[|s| - |TrimLeft(s)|..]
    ensures AllSpaces(s[..|s| - |TrimLeft(s)|])
    ensures |TrimLeft(s)| > 0 ==> TrimLeft(s)[0] != ' '
    decreases |s|
  {
    if |s| > 0 && s[0] == ' ' {
      var r := TrimLeft(s[1..]);
      TrimLeftSpec(s[1..]);
      assert s[..|s| - |r|] == [' '] + s[1..][..|s| - 1 - |r|];
    }
  }

  /** `TrimRight` keeps a prefix of `s`, everything it drops is a space,
      and what it keeps does not end with one. */
  lemma {:induction false} TrimRightSpec(s: string)
    ensures |TrimRight(s)| <= |s| && TrimRight(s) == s[..|TrimRight(s)|]
    ensures AllSpaces(s[|TrimRight(s)|..])
    ensures |TrimRight(s)| > 0 ==> TrimRight(s)[|TrimRight(s)| - 1] != ' '
    decreases |s|
  {
    if |s| > 0 && s[|s| - 1] == ' ' {
      var r := TrimRight(s[..|s| - 1]);
      TrimRightSpec(s[..|s| - 1]);
      assert s[|r|..] == s[..|s| - 1][|r|..] + [' '];
    }
  }

  /** `strings.Trim(s, " ")`: no longer than `s`, and no space at either
      end. */
  function Trim(s: string): (r: string)
    ensures |r| <= |s|
    ensures NoEdgeSpace(r)
  {
    TrimRight(TrimLeft(s))
  }

  /** Trim keeps a contiguous middle part of `s`, drops only spaces around
      it, and leaves no space at either end. */
  lemma TrimIsSpaceFreeInfix(s: string)
    ensures exists i, j ::
              && 0 <= i <= j <= |s| && Trim(s) == s[i..j]
              && AllSpaces(s[..i]) && AllSpaces(s[j..])
    ensures NoEdgeSpace(Trim(s))
  {
    TrimLeftSpec(s);
    TrimRightSpec(TrimLeft(s));
    var l := TrimLeft(s);
    var i := |s| - |l|;
    var j := i + |Trim(s)|;
    assert Trim(s) == l[..|Trim(s)|];
    assert Trim(s) == s[i..j];
    assert s[j..] == l[|Trim(s)|..];
  }

  /** A string without edge spaces is its own trim. */
  lemma TrimFixesUntrimmed(s: string)
    requires NoEdgeSpace(s)
    ensures Trim(s) == s
  {
    assert TrimLeft(s) == s;
    assert TrimRight(s) == s;
  }

  /** Trimming twice is trimming once. */
  lemma TrimIdempotent(s: string)
    ensures Trim(Trim(s)) == Trim(s)
  {
    TrimIsSpaceFreeInfix(s);
    TrimFixesUntrimmed(Trim(s));
  }

  /** Only `' '` is trimmed: a string framed by tabs is left as it is. */
  lemma TrimKeepsTabs(s: string)
    requires |s| > 0 && s[0] == '\t' && s[|s| - 1] == '\t'
    ensures Trim(s) == s
  {
  }
}

/** Go strings as this program uses them: byte sequences, one character per byte. */
module Text {
  datatype Option<+T> = None | Some(value: T)

  predicate HasPrefix(s: string, p: string) {
    p <= s
  }

  predicate HasSuffix(s: string, p: string) {
    |p| <= |s| && s[|s| - |p|..] == p
  }

  function TrimPrefix(s: string, p: string): string {
    if HasPrefix(s, p) then s[|p|..] else s
  }

  predicate IsSpace(c: char) {
    c == ' ' || c == '\t' || c == '\n' || c == '\r' || c as int == 11 || c as int == 12
  }

  /** The tab, the four line ends of ASCII and the space. */
  lemma SpaceMeaning(c: char)
    ensures IsSpace(c) <==> 9 <= c as int <= 13 || c as int == 32
  {
  }

  function TrimLeft(s: string): string {
    if s != "" && IsSpace(s[0]) then TrimLeft(s[1..]) else s
  }

  function TrimRight(s: string): string {
    if s != "" && IsSpace(s[|s| - 1]) then TrimRight(s[..|s| - 1]) else s
  }

  function TrimSpace(s: string): string {
    TrimRight(TrimLeft(s))
  }

  /** No blank at either end. */
  predicate Trimmed(s: string) {
    s == "" || (!IsSpace(s[0]) && !IsSpace(s[|s| - 1]))
  }

  lemma {:induction false} TrimLeftMeaning(s: string)
    ensures TrimLeft(s) == "" || !IsSpace(TrimLeft(s)[0])
    ensures Trimmed(s) ==> TrimLeft(s) == s
  {
    if s != "" && IsSpace(s[0]) {
      TrimLeftMeaning(s[1..]);
    }
  }

  lemma {:induction false} TrimRightMeaning(s: string)
    ensures TrimRight(s) <= s
    ensures TrimRight(s) == "" || !IsSpace(TrimRight(s)[|TrimRight(s)| - 1])
    ensures Trimmed(s) ==> TrimRight(s) == s
  {
    if s != "" && IsSpace(s[|s| - 1]) {
      TrimRightMeaning(s[..|s| - 1]);
    }
  }

  /** Trimming leaves no blank at either end, and what has none alone. */
  lemma TrimSpaceMeaning(s: string)
    ensures Trimmed(TrimSpace(s))
    ensures Trimmed(s) ==> TrimSpace(s) == s
  {
    TrimLeftMeaning(s);
    TrimRightMeaning(TrimLeft(s));
  }

  /** Trimming takes nothing but blanks, from the two ends. */
  lemma {:induction false} TrimLeftTakesBlanks(s: string) returns (blanks: string)
    ensures s == blanks + TrimLeft(s) && forall c <- blanks :: IsSpace(c)
  {
    blanks := "";
    if s != "" && IsSpace(s[0]) {
      var more := TrimLeftTakesBlanks(s[1..]);
      blanks := [s[0]] + more;
      assert s == [s[0]] + s[1..];
    }
  }

  lemma {:induction false} TrimRightTakesBlanks(s: string) returns (blanks: string)
    ensures s == TrimRight(s) + blanks && forall c <- blanks :: IsSpace(c)
  {
    blanks := "";
    if s != "" && IsSpace(s[|s| - 1]) {
      var more := TrimRightTakesBlanks(s[..|s| - 1]);
      blanks := more + [s[|s| - 1]];
      assert s == s[..|s| - 1] + [s[|s| - 1]];
    }
  }

  lemma TrimSpaceTakesBlanks(s: string) returns (before: string, after: string)
    ensures s == before + TrimSpace(s) + after
    ensures (forall c <- before :: IsSpace(c)) && forall c <- after :: IsSpace(c)
  {
    before := TrimLeftTakesBlanks(s);
    after := TrimRightTakesBlanks(TrimLeft(s));
    assert before + (TrimSpace(s) + after) == before + TrimSpace(s) + after;
  }

  function Join(parts: seq<string>, sep: string): string {
    if parts == [] then ""
    else if |parts| == 1 then parts[0]
    else parts[0] + sep + Join(parts[1..], sep)
  }

  /** The first position of `c` in `s` from `i` on, or |s|. */
  function IndexFrom(s: string, c: char, i: nat): (r: nat)
    requires i <= |s|
    ensures i <= r <= |s|
    ensures forall k :: i <= k < r ==> s[k] != c
    ensures r < |s| ==> s[r] == c
    decreases |s| - i
  {
    if i == |s| || s[i] == c then i else IndexFrom(s, c, i + 1)
  }

  /** The first position of `c` in `s`, or |s|. */
  function IndexOf(s: string, c: char): (r: nat)
    ensures r <= |s|
    ensures forall k :: 0 <= k < r ==> s[k] != c
    ensures r < |s| ==> s[r] == c
  {
    IndexFrom(s, c, 0)
  }

  /** A text cut at every `c`. */
  function Cut(s: string, c: char): seq<string>
    decreases |s|
  {
    var i := IndexOf(s, c);
    if i == |s| then [s] else [s[..i]] + Cut(s[i + 1..], c)
  }

  lemma FirstCut(head: string, c: char, rest: string)
    requires c !in head
    ensures IndexOf(head + [c] + rest, c) == |head|
  {
    var s := head + [c] + rest;
    assert s[|head|] == c;
    assert forall k | 0 <= k < |head| :: s[k] == head[k];
  }

  lemma NoCut(s: string, c: char)
    requires c !in s
    ensures IndexOf(s, c) == |s|
  {
  }

  /** What was joined by a separator that no part holds is found again by cutting at it. */
  lemma {:induction false} CutJoin(parts: seq<string>, c: char)
    requires parts != [] && forall p <- parts :: c !in p
    ensures Cut(Join(parts, [c]), c) == parts
  {
    if |parts| > 1 {
      CutJoin(parts[1..], c);
      var rest := Join(parts[1..], [c]);
      var s := parts[0] + [c] + rest;
      assert Join(parts, [c]) == s;
      FirstCut(parts[0], c, rest);
      assert s[..|parts[0]|] == parts[0] && s[|parts[0]| + 1..] == rest;
      assert parts == [parts[0]] + parts[1..];
    } else {
      assert Join(parts, [c]) == parts[0];
      NoCut(parts[0], c);
    }
  }

  lemma PrefixSplit(a: string, b: string, s: string)
    requires a + b <= s
    ensures a <= s && b <= s[|a|..]
  {
    assert s[..|a|] == (a + b)[..|a|];
    assert s[|a|..][..|b|] == (a + b)[|a|..];
  }

  lemma TakeOfConcat(a: string, b: string, k: nat)
    requires |a| <= k <= |a| + |b|
    ensures (a + b)[..k][|a|..] == b[..k - |a|]
  {
  }

  /** Two strings cut at the first `c` agree on both halves. */
  lemma FirstCutUnique(a1: string, b1: string, a2: string, b2: string, c: char)
    requires c !in a1 && c !in a2
    requires a1 + [c] + b1 == a2 + [c] + b2
    ensures a1 == a2 && b1 == b2
  {
    var s := a1 + [c] + b1;
    assert s[..|a1|] == a1 && s[..|a2|] == a2;
    assert forall k | 0 <= k < |a1| :: s[k] == a1[k];
    assert forall k | 0 <= k < |a2| :: s[k] == a2[k];
    assert s[|a1|] == c && s[|a2|] == c;
    assert |a1| == |a2|;
    assert s[|a1| + 1..] == b1 && s[|a2| + 1..] == b2;
  }

  /** Two strings cut at the last `c` agree on both halves. */
  lemma LastCutUnique(a1: string, b1: string, a2: string, b2: string, c: char)
    requires c !in b1 && c !in b2
    requires a1 + [c] + b1 == a2 + [c] + b2
    ensures a1 == a2 && b1 == b2
  {
    var s := a1 + [c] + b1;
    assert s[|a1|] == c && s[|a2|] == c;
    assert forall k | |a1| < k < |s| :: s[k] == b1[k - |a1| - 1];
    assert forall k | |a2| < k < |s| :: s[k] == b2[k - |a2| - 1];
    assert |a1| == |a2|;
    assert s[..|a1|] == a1 && s[..|a2|] == a2;
    assert s[|a1| + 1..] == b1 && s[|a2| + 1..] == b2;
  }
}

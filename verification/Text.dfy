/** Strings as the Go and JavaScript sources use them. One `char` stands for one byte of a
    Go string; nothing below depends on the range of a character. */
module Text {

  datatype Option<+T> = None | Some(value: T)

  /** The base-10 digits of `n`, as strconv prints them: no sign, no leading zero. */
  function Digits(n: nat): (s: string)
    ensures |s| > 0
    ensures forall c | c in s :: '0' <= c <= '9'
  {
    var last := ['0' + (n % 10) as char];
    if n < 10 then last else Digits(n / 10) + last
  }

  /** strconv.Itoa and strconv.FormatInt(n, 10). */
  function Itoa(n: int): (s: string)
    ensures |s| > 0
    ensures forall c | c in s :: c == '-' || '0' <= c <= '9'
  {
    if n < 0 then "-" + Digits(-n) else Digits(n)
  }

  /** The number a digit string denotes. */
  function Value(s: string): nat {
    if s == [] then 0
    else
      var c := s[|s| - 1];
      10 * Value(s[..|s| - 1]) + (if '0' <= c <= '9' then (c - '0') as nat else 0)
  }

  function ParseInt(s: string): int {
    if s != [] && s[0] == '-' then -(Value(s[1..]) as int) else Value(s)
  }

  lemma {:induction false} ValueOfDigits(n: nat)
    ensures Value(Digits(n)) == n
  {
    if n >= 10 {
      ValueOfDigits(n / 10);
      assert Digits(n)[..|Digits(n)| - 1] == Digits(n / 10);
    }
  }

  lemma ParseIntOfItoa(n: int)
    ensures ParseInt(Itoa(n)) == n
  {
    if n < 0 {
      ValueOfDigits(-n);
      assert Itoa(n)[1..] == Digits(-n);
    } else {
      ValueOfDigits(n);
      assert Digits(n)[0] in Digits(n);
    }
  }

  /** The index of the first `c` in `s`, or |s|. */
  function IndexOf(s: string, c: char): (i: nat)
    ensures i <= |s|
    ensures i < |s| ==> s[i] == c
    ensures forall j | 0 <= j < i :: s[j] != c
    ensures c in s <==> i < |s|
  {
    if s == [] || s[0] == c then 0 else 1 + IndexOf(s[1..], c)
  }

  lemma IndexOfAppend(a: string, c: char, rest: string)
    requires c !in a
    ensures IndexOf(a + [c] + rest, c) == |a|
  {
    var s := a + [c] + rest;
    assert s[|a|] == c;
    assert forall j | 0 <= j < |a| :: s[j] == a[j] && a[j] in a;
  }

  /** strings.Join. */
  function Join(parts: seq<string>, sep: char): string {
    if |parts| == 0 then ""
    else if |parts| == 1 then parts[0]
    else parts[0] + [sep] + Join(parts[1..], sep)
  }

  /** strings.SplitN with a one-character separator and n >= 1. */
  function SplitN(s: string, sep: char, n: nat): (parts: seq<string>)
    requires n >= 1
    ensures 1 <= |parts| <= n
    ensures forall k | 0 <= k < |parts| - 1 :: sep !in parts[k]
    ensures |parts| < n ==> sep !in parts[|parts| - 1]
    decreases n
  {
    var i := IndexOf(s, sep);
    if n == 1 || i == |s| then [s] else [s[..i]] + SplitN(s[i + 1..], sep, n - 1)
  }

  lemma SplitStep(a: string, sep: char, rest: string, n: nat)
    requires sep !in a && n > 1
    ensures SplitN(a + [sep] + rest, sep, n) == [a] + SplitN(rest, sep, n - 1)
  {
    var s := a + [sep] + rest;
    IndexOfAppend(a, sep, rest);
    assert s[..|a|] == a;
    assert s[|a| + 1..] == rest;
  }

  /** Splitting undoes joining when only the last part may contain the separator. */
  lemma {:induction false} SplitOfJoin(parts: seq<string>, sep: char)
    requires |parts| >= 1
    requires forall k | 0 <= k < |parts| - 1 :: sep !in parts[k]
    ensures SplitN(Join(parts, sep), sep, |parts|) == parts
  {
    if |parts| > 1 {
      SplitStep(parts[0], sep, Join(parts[1..], sep), |parts|);
      SplitOfJoin(parts[1..], sep);
      assert parts == [parts[0]] + parts[1..];
    }
  }

  /** Joining undoes splitting, always. */
  lemma {:induction false} JoinOfSplit(s: string, sep: char, n: nat)
    requires n >= 1
    ensures Join(SplitN(s, sep, n), sep) == s
    decreases n
  {
    hide IndexOf;
    var i := IndexOf(s, sep);
    if n > 1 && i < |s| {
      JoinOfSplit(s[i + 1..], sep, n - 1);
      JoinCons(s[..i], SplitN(s[i + 1..], sep, n - 1), sep);
      AroundIndex(s, i);
    }
  }

  lemma AroundIndex(s: string, i: nat)
    requires i < |s|
    ensures s[..i] + [s[i]] + s[i + 1..] == s
  {
  }

  lemma JoinCons(first: string, rest: seq<string>, sep: char)
    requires rest != []
    ensures Join([first] + rest, sep) == first + [sep] + Join(rest, sep)
  {
    assert ([first] + rest)[1..] == rest;
  }
}

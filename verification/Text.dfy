/** Text helpers of the host-name and ruleset code, on ASCII text. */
module Text {

  function LowerChar(c: char): char {
    if 'A' <= c <= 'Z' then (c as int + 32) as char else c
  }

  function Lower(s: string): (r: string)
    ensures |r| == |s| && forall i :: 0 <= i < |s| ==> r[i] == LowerChar(s[i])
  {
    seq(|s|, i requires 0 <= i < |s| => LowerChar(s[i]))
  }

  predicate IsSpace(c: char) { c in " \t\n\r" || c == 11 as char || c == 12 as char }

  function TrimLeft(s: string): string {
    if s != "" && IsSpace(s[0]) then TrimLeft(s[1..]) else s
  }

  function TrimRight(s: string): string {
    if s != "" && IsSpace(s[|s| - 1]) then TrimRight(s[..|s| - 1]) else s
  }

  function Trim(s: string): string { TrimRight(TrimLeft(s)) }

  /** strings.ToLower(strings.TrimSpace(s)) */
  function Norm(s: string): string { Lower(Trim(s)) }

  predicate Tight(s: string) { s != "" ==> !IsSpace(s[0]) && !IsSpace(s[|s| - 1]) }

  lemma {:induction false} TrimRightTight(s: string)
    requires s != "" ==> !IsSpace(s[0])
    ensures Tight(TrimRight(s))
  {
    if s != "" && IsSpace(s[|s| - 1]) { TrimRightTight(s[..|s| - 1]); }
  }

  lemma {:induction false} TrimTight(s: string)
    ensures Tight(Trim(s))
  {
    if s != "" && IsSpace(s[0]) { TrimTight(s[1..]); } else { TrimRightTight(s); }
  }

  lemma NormIdempotent(s: string)
    ensures Norm(Norm(s)) == Norm(s)
  {
    TrimTight(s);
    assert Tight(Norm(s));
    assert Lower(Lower(Trim(s))) == Lower(Trim(s));
  }

  // ----- substrings -----

  predicate OccursAt(s: string, sub: string, i: int) {
    0 <= i <= |s| - |sub| && s[i..i + |sub|] == sub
  }

  /** strings.Contains */
  predicate Contains(s: string, sub: string) { exists i | 0 <= i <= |s| - |sub| :: OccursAt(s, sub, i) }

  lemma ContainsMiddle(a: string, sub: string, b: string)
    ensures Contains(a + sub + b, sub)
  {
    assert OccursAt(a + sub + b, sub, |a|);
  }

  lemma SeparatorInside(a: string, c: char, b: string, sub: string, i: nat)
    requires OccursAt(a + [c] + b, sub, i) && i <= |a| < i + |sub|
    ensures c in sub
  {
    assert sub[|a| - i] == (a + [c] + b)[|a|] == c;
  }

  /** A text without the separator that occurs across it occurs on one side of it. */
  lemma ContainsSplit(a: string, c: char, b: string, sub: string)
    requires sub != "" && c !in sub && Contains(a + [c] + b, sub)
    ensures Contains(a, sub) || Contains(b, sub)
  {
    var s := a + [c] + b;
    var i :| 0 <= i <= |s| - |sub| && OccursAt(s, sub, i);
    if i + |sub| <= |a| {
      assert a[i..i + |sub|] == s[i..i + |sub|];
      assert OccursAt(a, sub, i);
    } else if i <= |a| {
      SeparatorInside(a, c, b, sub, i);
    } else {
      assert b[i - |a| - 1..i - |a| - 1 + |sub|] == s[i..i + |sub|];
      assert OccursAt(b, sub, i - |a| - 1);
    }
  }

  /** Words joined by single spaces. */
  function Words(ws: seq<string>): string {
    if ws == [] then "" else if |ws| == 1 then ws[0] else ws[0] + " " + Words(ws[1..])
  }

  lemma {:induction false} InSomeWord(ws: seq<string>, sub: string)
    requires sub != "" && ' ' !in sub && Contains(Words(ws), sub)
    ensures exists w :: w in ws && Contains(w, sub)
  {
    if |ws| > 1 {
      assert ws[0] + " " + Words(ws[1..]) == ws[0] + [' '] + Words(ws[1..]);
      ContainsSplit(ws[0], ' ', Words(ws[1..]), sub);
      if Contains(Words(ws[1..]), sub) { InSomeWord(ws[1..], sub); }
    } else if |ws| == 1 {
      assert ws[0] in ws;
    }
  }

  lemma LowerConcat(a: string, b: string)
    ensures Lower(a + b) == Lower(a) + Lower(b)
  {
  }

  function LowerAll(ws: seq<string>): seq<string> {
    seq(|ws|, i requires 0 <= i < |ws| => Lower(ws[i]))
  }

  lemma {:induction false} LowerWords(ws: seq<string>)
    ensures Lower(Words(ws)) == Words(LowerAll(ws))
  {
    if |ws| > 1 {
      LowerWords(ws[1..]);
      LowerConcat(ws[0] + " ", Words(ws[1..]));
      LowerConcat(ws[0], " ");
      assert LowerAll(ws)[1..] == LowerAll(ws[1..]);
      assert Lower(" ") == " ";
    }
  }

  lemma {:induction false} WordsConcat(a: seq<string>, b: seq<string>)
    requires a != [] && b != []
    ensures Words(a + b) == Words(a) + " " + Words(b)
  {
    if |a| > 1 {
      WordsConcat(a[1..], b);
      assert (a + b)[1..] == a[1..] + b;
    } else {
      assert (a + b)[1..] == b;
    }
  }

  lemma WordsFirst(mid: seq<string>, b: seq<string>)
    requires mid != []
    ensures Words(mid + b) == Words(mid) + (if b == [] then "" else " " + Words(b))
  {
    if b == [] { assert mid + b == mid; } else { WordsConcat(mid, b); }
  }

  lemma WordsLast(a: seq<string>, rest: seq<string>)
    requires rest != []
    ensures Words(a + rest) == (if a == [] then "" else Words(a) + " ") + Words(rest)
  {
    if a == [] { assert a + rest == rest; } else { WordsConcat(a, rest); }
  }

  /** A run of consecutive words occurs in the line. */
  lemma SubWords(a: seq<string>, mid: seq<string>, b: seq<string>)
    requires mid != []
    ensures Contains(Words(a + mid + b), Words(mid))
  {
    WordsFirst(mid, b);
    WordsLast(a, mid + b);
    assert a + mid + b == a + (mid + b);
    Reassociate(if a == [] then "" else Words(a) + " ", Words(mid), if b == [] then "" else " " + Words(b));
  }

  lemma Reassociate(a: string, sub: string, b: string)
    ensures Contains(a + (sub + b), sub)
  {
    assert a + (sub + b) == a + sub + b;
    ContainsMiddle(a, sub, b);
  }

  // ----- decimal numbers -----

  function Digits(n: nat): (s: string)
    ensures |s| >= 1 && forall c :: c in s ==> '0' <= c <= '9'
  {
    if n < 10 then [('0' as int + n) as char] else Digits(n / 10) + [('0' as int + n % 10) as char]
  }

  lemma DigitsShort(n: nat)
    requires n < 100000
    ensures |Digits(n)| <= 5
  {
    assert n >= 10 ==> |Digits(n)| == 1 + |Digits(n / 10)|;
    assert n >= 100 ==> |Digits(n / 10)| == 1 + |Digits(n / 100)|;
    assert n >= 1000 ==> |Digits(n / 100)| == 1 + |Digits(n / 1000)|;
    assert n >= 10000 ==> |Digits(n / 1000)| == 1 + |Digits(n / 10000)|;
  }
}

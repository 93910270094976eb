/** Text lines, the words they split into, and decimal numbers. */
module Words {

  datatype Option<+T> = None | Some(value: T)

  predicate IsBlank(c: char) {
    c == ' ' || '\t' <= c <= '\r'
  }

  /** A word is what the shell can pass as one argument: not empty, no blanks. */
  predicate IsWord(w: string) {
    w != [] && forall i :: 0 <= i < |w| ==> !IsBlank(w[i])
  }

  predicate AllWords(ws: seq<string>) {
    forall i :: 0 <= i < |ws| ==> IsWord(ws[i])
  }

  /** The fields of a printed line, separated by one space each. */
  function Join(ws: seq<string>): string {
    if |ws| == 0 then "" else if |ws| == 1 then ws[0] else ws[0] + " " + Join(ws[1..])
  }

  /** The maximal runs of non-blank characters of `s`, the first one continuing `word`. */
  function SplitFrom(word: string, s: string): seq<string>
    decreases |s|
  {
    if s == [] then
      if word == [] then [] else [word]
    else if IsBlank(s[0]) then
      (if word == [] then [] else [word]) + SplitFrom([], s[1..])
    else
      SplitFrom(word + [s[0]], s[1..])
  }

  function Split(s: string): seq<string> {
    SplitFrom([], s)
  }

  lemma {:induction false} SplitFromYieldsWords(word: string, s: string)
    requires forall i :: 0 <= i < |word| ==> !IsBlank(word[i])
    ensures AllWords(SplitFrom(word, s))
    decreases |s|
  {
    if s != [] {
      if IsBlank(s[0]) {
        SplitFromYieldsWords([], s[1..]);
      } else {
        SplitFromYieldsWords(word + [s[0]], s[1..]);
      }
    }
  }

  lemma {:induction false} SplitFromPassesWord(word: string, w: string, rest: string)
    requires forall i :: 0 <= i < |w| ==> !IsBlank(w[i])
    ensures SplitFrom(word, w + rest) == SplitFrom(word + w, rest)
    decreases |w|
  {
    if w == [] {
      assert w + rest == rest && word + w == word;
    } else {
      assert (w + rest)[1..] == w[1..] + rest;
      SplitFromPassesWord(word + [w[0]], w[1..], rest);
      assert word + [w[0]] + w[1..] == word + w;
    }
  }

  /** Words survive printing, and a last field of any text contributes its own words. */
  lemma {:induction false} SplitOfJoin(ws: seq<string>, last: string)
    requires AllWords(ws)
    ensures Split(Join(ws + [last])) == ws + Split(last)
  {
    if ws == [] {
      assert ws + [last] == [last] && ws + Split(last) == Split(last);
    } else {
      var rest := " " + Join(ws[1..] + [last]);
      assert (ws + [last])[1..] == ws[1..] + [last];
      assert Join(ws + [last]) == ws[0] + rest;
      SplitFromPassesWord([], ws[0], rest);
      assert [] + ws[0] == ws[0];
      assert rest[1..] == Join(ws[1..] + [last]);
      SplitOfJoin(ws[1..], last);
      assert [ws[0]] + (ws[1..] + Split(last)) == ws + Split(last);
    }
  }

  lemma SplitOfWord(w: string)
    requires IsWord(w)
    ensures Split(w) == [w]
  {
    SplitFromPassesWord([], w, []);
    assert w + [] == w && [] + w == w;
  }

  lemma SplitOfWords(ws: seq<string>)
    requires AllWords(ws)
    ensures Split(Join(ws)) == ws
  {
    if ws != [] {
      var n := |ws| - 1;
      assert ws == ws[..n] + [ws[n]];
      SplitOfJoin(ws[..n], ws[n]);
      SplitOfWord(ws[n]);
    }
  }

  /** Any blank, or several, separate words. */
  lemma BlanksSeparate(a: string, blank: char, b: string)
    requires IsWord(a) && blank in " \t\n\r"
    ensures Split(a + ([blank] + b)) == [a] + Split(b) && Split([blank] + b) == Split(b)
  {
    SplitFromPassesWord([], a, [blank] + b);
    assert [] + a == a && ([blank] + b)[1..] == b;
  }

  /** A value of a `.LINE` argument: at least one word, single spaces between them. */
  predicate IsPhrase(s: string) {
    Split(s) != [] && Join(Split(s)) == s
  }

  lemma JoinIsPhrase(ws: seq<string>)
    requires AllWords(ws) && ws != []
    ensures IsPhrase(Join(ws)) && Split(Join(ws)) == ws
  {
    SplitOfWords(ws);
  }

  predicate IsDigit(c: char) {
    '0' <= c <= '9'
  }

  function Decimal(n: nat): (w: string)
    ensures w != []
  {
    var digit := (n % 10 + '0' as int) as char;
    if n < 10 then [digit] else Decimal(n / 10) + [digit]
  }

  predicate AllDigits(w: string) {
    forall i :: 0 <= i < |w| ==> IsDigit(w[i])
  }

  function Number(w: string): nat
    requires AllDigits(w)
  {
    if w == [] then 0
    else Number(w[..|w| - 1]) * 10 + (w[|w| - 1] as int - '0' as int)
  }

  lemma {:induction false} NumberOfDecimal(n: nat)
    ensures IsWord(Decimal(n)) && AllDigits(Decimal(n))
    ensures Number(Decimal(n)) == n
  {
    var w := Decimal(n);
    if n >= 10 {
      NumberOfDecimal(n / 10);
      assert w[..|w| - 1] == Decimal(n / 10);
    } else {
      assert w[..|w| - 1] == [];
    }
  }
}

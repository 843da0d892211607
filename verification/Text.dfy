/** Decimal numbers and block lists as the file system writes them into its configuration files, and as it reads
    them back: bracket strip, split at commas, trim, decimal conversion. */
module Text {
  import opened Memory

  // ----- Numbers ----------------------------------------------------------------------------------------

  function Digit(d: nat): char
    requires d < 10
  {
    ['0', '1', '2', '3', '4', '5', '6', '7', '8', '9'][d]
  }

  predicate IsDigit(c: char) {
    '0' <= c <= '9'
  }

  function Value(c: char): nat
    requires IsDigit(c)
  {
    c as int - '0' as int
  }

  lemma DigitValue(d: nat)
    requires d < 10
    ensures IsDigit(Digit(d)) && Value(Digit(d)) == d
  {
  }

  function Digits(n: nat): string {
    if n < 10 then [Digit(n)] else Digits(n / 10) + [Digit(n % 10)]
  }

  /** What "%d" prints. */
  function PrintInt(n: int): string {
    if n < 0 then ['-'] + Digits(-n) else Digits(n)
  }

  /** Digits up to the first other character. */
  function ReadDigits(s: string, acc: nat): nat {
    if s == [] || !IsDigit(s[0]) then acc else ReadDigits(s[1..], acc * 10 + Value(s[0]))
  }

  predicate IsBlank(c: char) {
    c == ' ' || c == '\t'
  }

  predicate IsSpace(c: char) {
    c == ' ' || c == '\t' || c == '\n' || c == '\r' || c == 11 as char || c == 12 as char
  }

  /** `atoi`: leading space, a sign, digits; whatever follows is ignored. */
  function Atoi(s: string): int {
    if s == [] then 0
    else if IsSpace(s[0]) then Atoi(s[1..])
    else if s[0] == '-' then 0 - (ReadDigits(s[1..], 0) as int)
    else if s[0] == '+' then ReadDigits(s[1..], 0)
    else ReadDigits(s, 0)
  }

  lemma {:induction false} ReadSnoc(s: string, d: char, acc: nat)
    requires IsDigit(d) && forall k :: 0 <= k < |s| ==> IsDigit(s[k])
    ensures ReadDigits(s + [d], acc) == ReadDigits(s, acc) * 10 + Value(d)
  {
    if s == [] {
      assert s + [d] == [d] && [d][1..] == [];
    } else {
      assert (s + [d])[1..] == s[1..] + [d];
      ReadSnoc(s[1..], d, acc * 10 + Value(s[0]));
    }
  }

  lemma {:induction false} DigitsRead(n: nat)
    ensures |Digits(n)| > 0 && forall k :: 0 <= k < |Digits(n)| ==> IsDigit(Digits(n)[k])
    ensures ReadDigits(Digits(n), 0) == n
  {
    if n < 10 {
      DigitValue(n);
      assert Digits(n)[1..] == [];
    } else {
      DigitsRead(n / 10);
      DigitValue(n % 10);
      ReadSnoc(Digits(n / 10), Digit(n % 10), 0);
    }
  }

  /** Printing an integer and reading it back. */
  lemma IntRoundTrip(n: int)
    ensures Atoi(PrintInt(n)) == n
    ensures forall k :: 0 <= k < |PrintInt(n)| ==> IsDigit(PrintInt(n)[k]) || PrintInt(n)[k] == '-'
    ensures PrintInt(n) != []
  {
    DigitsRead(if n < 0 then -n else n);
    if n < 0 {
      assert PrintInt(n)[1..] == Digits(-n);
    }
  }

  // ----- Splitting and trimming ------------------------------------------------------------------------------

  /** The text cut at a separator, empty pieces included. */
  function Split<T(==)>(s: seq<T>, sep: T): (r: seq<seq<T>>)
    ensures |r| >= 1
  {
    if s == [] then [[]]
    else if s[0] == sep then [[]] + Split(s[1..], sep)
    else
      var rest := Split(s[1..], sep);
      [[s[0]] + rest[0]] + rest[1..]
  }

  function TrimLeft(s: string): string {
    if s != [] && IsBlank(s[0]) then TrimLeft(s[1..]) else s
  }

  function TrimRight(s: string): string {
    if s != [] && IsSpace(s[|s| - 1]) then TrimRight(s[..|s| - 1]) else s
  }

  function Trim(s: string): string {
    TrimRight(TrimLeft(s))
  }

  lemma {:induction false} SplitFirst<T>(a: seq<T>, sep: T, rest: seq<T>)
    requires sep !in a
    ensures Split(a + [sep] + rest, sep) == [a] + Split(rest, sep)
  {
    if a == [] {
      assert (a + [sep] + rest)[1..] == rest;
    } else {
      assert (a + [sep] + rest)[1..] == a[1..] + [sep] + rest;
      assert a[0] in a;
      SplitFirst(a[1..], sep, rest);
      assert ([a[1..]] + Split(rest, sep))[1..] == Split(rest, sep) && a == [a[0]] + a[1..];
    }
  }

  lemma {:induction false} SplitOnly<T>(a: seq<T>, sep: T)
    requires sep !in a
    ensures Split(a, sep) == [a]
  {
    if a != [] {
      assert a[0] in a;
      SplitOnly(a[1..], sep);
      assert [a[1..]][1..] == [] && a == [a[0]] + a[1..];
    }
  }

  // ----- Block lists ------------------------------------------------------------------------------------------

  /** A 32-bit word as "%d" sees it, and a decimal number as a 32-bit word receives it. */
  function Signed(w: Word): int {
    if w < 0x8000_0000 then w else w - 0x1_0000_0000
  }

  function Unsigned(n: int): Word {
    n % 0x1_0000_0000
  }

  function PrintWord(w: Word): string {
    PrintInt(Signed(w))
  }

  function ReadWord(s: string): Word {
    Unsigned(Atoi(s))
  }

  function Joined(pieces: seq<string>): string {
    if pieces == [] then [] else pieces[0] + Tail(pieces[1..])
  }

  function Tail(pieces: seq<string>): string {
    if pieces == [] then [] else [','] + pieces[0] + Tail(pieces[1..])
  }

  function PrintWords(ids: seq<Word>): (r: seq<string>)
    ensures |r| == |ids| && forall k :: 0 <= k < |ids| ==> r[k] == PrintWord(ids[k])
  {
    seq(|ids|, k requires 0 <= k < |ids| => PrintWord(ids[k]))
  }

  function ReadWords(pieces: seq<string>): (r: seq<Word>)
    ensures |r| == |pieces| && forall k :: 0 <= k < |pieces| ==> r[k] == ReadWord(Trim(pieces[k]))
  {
    seq(|pieces|, k requires 0 <= k < |pieces| => ReadWord(Trim(pieces[k])))
  }

  function PrintList(ids: seq<Word>): string {
    ['['] + Joined(PrintWords(ids)) + [']']
  }

  /** A text of two characters is the empty list, whatever they are. */
  function ReadList(text: string): seq<Word>
    requires |text| >= 2
  {
    if |text| == 2 then [] else ReadWords(Split(text[1..|text| - 1], ','))
  }

  lemma SignedBack(w: Word)
    ensures Unsigned(Signed(w)) == w
  {
  }

  predicate IsNumeral(c: char) {
    IsDigit(c) || c == '-'
  }

  lemma NumeralTrimmed(s: string)
    requires s != [] && forall k :: 0 <= k < |s| ==> IsNumeral(s[k])
    ensures Trim(s) == s && ',' !in s
  {
    assert IsNumeral(s[0]) && IsNumeral(s[|s| - 1]);
  }

  lemma WordTextRoundTrip(w: Word)
    ensures ReadWord(Trim(PrintWord(w))) == w && ',' !in PrintWord(w) && PrintWord(w) != []
  {
    IntRoundTrip(Signed(w));
    NumeralTrimmed(PrintWord(w));
    SignedBack(w);
  }

  /** Pieces without commas are found again. */
  lemma {:induction false} SplitJoined(pieces: seq<string>)
    requires pieces != [] && forall k :: 0 <= k < |pieces| ==> ',' !in pieces[k]
    ensures Split(Joined(pieces), ',') == pieces
  {
    if |pieces| == 1 {
      SplitOnly(pieces[0], ',');
      assert pieces[0] + [] == pieces[0];
    } else {
      SplitJoined(pieces[1..]);
      SplitFirst(pieces[0], ',', Joined(pieces[1..]));
      JoinedTail(pieces);
    }
  }

  lemma JoinedTail(pieces: seq<string>)
    requires |pieces| > 1
    ensures Joined(pieces) == pieces[0] + [','] + Joined(pieces[1..])
  {
  }

  lemma OneInList(id: Word)
    ensures PrintList([id]) == ['['] + PrintWord(id) + [']']
  {
    var pieces := PrintWords([id]);
    assert Joined(pieces) == PrintWord(id) by {
      assert pieces[1..] == [] && pieces[0] + [] == pieces[0];
    }
  }

  /** Writing a block list and reading it back gives the same list, for all lists of 32-bit ids, the empty one included. */
  lemma ListRoundTrip(ids: seq<Word>)
    ensures |PrintList(ids)| >= 2 && ReadList(PrintList(ids)) == ids
  {
    var pieces := PrintWords(ids);
    forall k | 0 <= k < |ids| ensures ',' !in pieces[k] && pieces[k] != [] && ReadWord(Trim(pieces[k])) == ids[k] {
      WordTextRoundTrip(ids[k]);
    }
    var text := PrintList(ids);
    if ids != [] {
      SplitJoined(pieces);
      assert Joined(pieces)[0] == pieces[0][0];
      assert text[1..|text| - 1] == Joined(pieces);
    }
  }

  // ----- The loops ---------------------------------------------------------------------------------------------

  lemma {:induction false} TailSnoc(pieces: seq<string>, p: string)
    ensures Tail(pieces + [p]) == Tail(pieces) + [','] + p
  {
    if pieces == [] {
      assert pieces + [p] == [p] && [p][1..] == [];
    } else {
      assert (pieces + [p])[1..] == pieces[1..] + [p];
      TailSnoc(pieces[1..], p);
    }
  }

  lemma JoinedSnoc(pieces: seq<string>, p: string)
    ensures Joined(pieces + [p]) == if pieces == [] then p else Joined(pieces) + [','] + p
  {
    if pieces == [] {
      assert pieces + [p] == [p] && [p][1..] == [];
    } else {
      assert (pieces + [p])[1..] == pieces[1..] + [p];
      TailSnoc(pieces[1..], p);
    }
  }

  /** The list written out element by element, with a comma before each but the first. */
  method WriteList(ids: seq<Word>) returns (text: string)
    ensures text == PrintList(ids)
  {
    ghost var pieces, body := PrintWords(ids), "";
    text := "[";
    var first := true;
    assert Joined(pieces[..0]) == "";
    for k := 0 to |ids|
      invariant first == (k == 0) && text == ['['] + body && body == Joined(pieces[..k])
    {
      hide Joined, PrintWord;
      WrittenNext(text, body, pieces, k);
      var p := PrintWord(ids[k]);
      if first {
        first := false;
        text := text + p;
      } else {
        text := text + ([','] + p);
      }
      body := Joined(pieces[..k + 1]);
    }
    assert pieces[..|ids|] == pieces;
    text := text + [']'];
  }

  lemma WrittenNext(text: string, body: string, pieces: seq<string>, k: nat)
    requires k < |pieces| && text == ['['] + body && body == Joined(pieces[..k])
    ensures ['['] + Joined(pieces[..k + 1]) == text + if k == 0 then pieces[k] else [','] + pieces[k]
  {
    hide Joined;
    JoinedSnoc(pieces[..k], pieces[k]);
    assert pieces[..k + 1] == pieces[..k] + [pieces[k]];
    if k == 0 {
      NoneJoined(pieces);
    } else {
      JoinMore(body, pieces[k]);
    }
  }

  lemma NoneJoined(pieces: seq<string>)
    ensures Joined(pieces[..0]) == ""
  {
  }

  lemma JoinMore(body: string, p: string)
    ensures ['['] + (body + [','] + p) == ['['] + body + ([','] + p)
  {
  }

  function Grown<T(==)>(r: seq<seq<T>>, c: T, sep: T): seq<seq<T>>
    requires |r| >= 1
  {
    if c == sep then r + [[]] else r[..|r| - 1] + [r[|r| - 1] + [c]]
  }

  lemma {:induction false} SplitSnoc<T>(s: seq<T>, c: T, sep: T)
    ensures Split(s + [c], sep) == Grown(Split(s, sep), c, sep)
  {
    if s == [] {
      assert s + [c] == [c] && [c][1..] == [] && Split<T>([], sep) == [[]];
      assert [c] + [] == [c] && [] + [c] == [c];
      assert Split([c], sep) == if c == sep then [[], []] else [[c]];
      assert Grown<T>([[]], c, sep) == if c == sep then [[], []] else [[c]];
    } else {
      assert (s + [c])[1..] == s[1..] + [c];
      SplitSnoc(s[1..], c, sep);
      GrownCons(Split(s[1..], sep), s[0], c, sep);
    }
  }

  lemma GrownCons<T>(r: seq<seq<T>>, x: T, c: T, sep: T)
    requires |r| >= 1
    ensures [[]] + Grown(r, c, sep) == Grown([[]] + r, c, sep)
    ensures var g := Grown(r, c, sep); [[x] + g[0]] + g[1..] == Grown([[x] + r[0]] + r[1..], c, sep)
  {
    if c != sep {
      var last := |r| - 1;
      assert [x] + (r[last] + [c]) == [x] + r[last] + [c];
      if last == 0 {
        assert r[1..] == [] && Grown(r, c, sep) == [r[0] + [c]];
      }
    }
  }

  lemma GrownLast<T>(pieces: seq<seq<T>>, token: seq<T>, c: T, sep: T)
    ensures Grown(pieces + [token], c, sep) == if c == sep then pieces + [token] + [[]] else pieces + [token + [c]]
  {
    var r := pieces + [token];
    assert r[..|r| - 1] == pieces && r[|r| - 1] == token;
  }

  /** Cutting a text at a separator, from left to right. */
  method SplitAt<T(==)>(s: seq<T>, sep: T) returns (pieces: seq<seq<T>>)
    ensures pieces == Split(s, sep)
  {
    pieces := [];
    var token: seq<T> := [];
    SplitNone(sep);
    hide Split, Grown;
    assert s[..0] == [];
    for k := 0 to |s|
      invariant pieces + [token] == Split(s[..k], sep)
    {
      SplitSnoc(s[..k], s[k], sep);
      GrownLast(pieces, token, s[k], sep);
      assert s[..k + 1] == s[..k] + [s[k]];
      if s[k] == sep {
        pieces := pieces + [token];
        token := [];
      } else {
        token := token + [s[k]];
      }
    }
    assert s[..|s|] == s;
    pieces := pieces + [token];
  }

  lemma SplitNone<T>(sep: T)
    ensures Split([], sep) == [] + [[]]
  {
  }

  /** The list read back, piece by piece. */
  method ParseList(text: string) returns (ids: seq<Word>)
    requires |text| >= 2
    ensures ids == ReadList(text)
  {
    if |text| - 2 == 0 {
      return [];
    }
    var pieces := SplitAt(text[1..|text| - 1], ',');
    ids := [];
    for k := 0 to |pieces|
      invariant ids == ReadWords(pieces)[..k]
    {
      ids := ids + [ReadWord(Trim(pieces[k]))];
    }
  }
}

/** Byte-string helpers that stand in for the parts of Go's `strings`,
    `strconv` and `path/filepath` packages the commit pipeline relies on.

    A `string` of this model holds ONE CHAR PER BYTE: Go's `len`, indexing
    and slicing count bytes, so non-ASCII text (the emoji of the
    post-processor) is written as its UTF-8 bytes, each a char below 256.
    Whitespace and case folding are the ASCII ones. */
module Text {

  // ---------------------------------------------------------------------
  // Characters

  predicate IsSpace(c: char) {
    c == ' ' || c == '\t' || c == '\n' || c == '\U{0B}' || c == '\U{0C}' || c == '\r'
  }

  predicate IsDigit(c: char) { '0' <= c <= '9' }

  predicate IsUpper(c: char) { 'A' <= c <= 'Z' }

  predicate IsLetter(c: char) { IsUpper(c) || 'a' <= c <= 'z' }

  function ToLower(c: char): char {
    if IsUpper(c) then (c as int + 32) as char else c
  }

  function ToUpper(c: char): char {
    if 'a' <= c <= 'z' then (c as int - 32) as char else c
  }

  /** strings.ToLower restricted to ASCII letters */
  function LowerAscii(s: string): (r: string)
    ensures |r| == |s|
    ensures forall i :: 0 <= i < |s| ==> r[i] == ToLower(s[i])
  {
    seq(|s|, i requires 0 <= i < |s| => ToLower(s[i]))
  }

  function UpperAscii(s: string): (r: string)
    ensures |r| == |s|
    ensures forall i :: 0 <= i < |s| ==> r[i] == ToUpper(s[i])
  {
    seq(|s|, i requires 0 <= i < |s| => ToUpper(s[i]))
  }

  /** Lower-casing twice is lower-casing once. */
  lemma LowerAsciiIdempotent(s: string)
    ensures LowerAscii(LowerAscii(s)) == LowerAscii(s)
  {
    var t := LowerAscii(s);
    forall i | 0 <= i < |s|
      ensures LowerAscii(t)[i] == t[i]
    {
      assert !IsUpper(t[i]);
    }
  }

  /** Lower-casing leaves a string alone exactly when it holds no byte in
      'A'..'Z'. */
  lemma LowerAsciiFixed(s: string)
    ensures LowerAscii(s) == s <==> forall i :: 0 <= i < |s| ==> !IsUpper(s[i])
  {
    if LowerAscii(s) == s {
      forall i | 0 <= i < |s|
        ensures !IsUpper(s[i])
      {
        assert ToLower(s[i]) == s[i];
      }
    }
  }

  // ---------------------------------------------------------------------
  // Searching

  /** Regrouping a concatenation; stated once so that proofs about long
      texts need not rediscover it element by element. */
  lemma AppendAssoc<T>(a: seq<T>, b: seq<T>, c: seq<T>)
    ensures (a + b) + c == a + (b + c)
  {
  }

  predicate HasPrefix(s: string, p: string) {
    |p| <= |s| && s[..|p|] == p
  }

  predicate HasSuffix(s: string, t: string) {
    |t| <= |s| && s[|s| - |t|..] == t
  }

  /** The two sides of a concatenation are its prefix and its suffix. */
  lemma AppendParts(a: string, b: string)
    ensures HasPrefix(a + b, a) && HasSuffix(a + b, b)
  {
    assert (a + b)[..|a|] == a;
    assert (a + b)[|a|..] == b;
  }

  /** strings.Contains */
  predicate Contains(s: string, sub: string)
    decreases |s|
  {
    HasPrefix(s, sub) || (s != [] && Contains(s[1..], sub))
  }

  /** An occurrence at any offset is found by Contains. */
  lemma {:induction false} ContainsAt(s: string, sub: string, i: nat)
    requires i + |sub| <= |s| && s[i..i + |sub|] == sub
    ensures Contains(s, sub)
  {
    if i > 0 {
      assert s[1..][i - 1..i - 1 + |sub|] == sub;
      ContainsAt(s[1..], sub, i - 1);
    }
  }

  /** An occurrence found by Contains sits at some offset. */
  lemma {:induction false} ContainsIndex(s: string, sub: string) returns (i: nat)
    requires Contains(s, sub)
    ensures i + |sub| <= |s| && s[i..i + |sub|] == sub
    decreases |s|
  {
    if HasPrefix(s, sub) {
      i := 0;
    } else {
      var j := ContainsIndex(s[1..], sub);
      i := j + 1;
      assert s[i..i + |sub|] == s[1..][j..j + |sub|];
    }
  }

  /** Text found in a part is found in the whole. */
  lemma ContainsWithin(a: string, s: string, b: string, sub: string)
    requires Contains(s, sub)
    ensures Contains(a + s + b, sub)
  {
    var i := ContainsIndex(s, sub);
    var w := a + s + b;
    assert w[|a| + i..|a| + i + |sub|] == s[i..i + |sub|];
    ContainsAt(w, sub, |a| + i);
  }

  /** Index of the first occurrence of `c` in `s` */
  function IndexOf(s: string, c: char): (i: nat)
    requires c in s
    ensures i < |s| && s[i] == c && c !in s[..i]
  {
    if s[0] == c then 0
    else
      assert s == [s[0]] + s[1..];
      var j := IndexOf(s[1..], c);
      assert s[..j + 1] == [s[0]] + s[1..][..j];
      j + 1
  }

  lemma IndexOfUnique(s: string, c: char, i: nat)
    requires i < |s| && s[i] == c && c !in s[..i]
    ensures IndexOf(s, c) == i
  {
  }

  // ---------------------------------------------------------------------
  // strings.Split with a one-byte separator, and strings.Join

  /** strings.Split(s, sep): the pieces between separators; never empty,
      and a trailing separator yields a trailing empty piece. */
  function Split(s: string, sep: char): (parts: seq<string>)
    ensures |parts| >= 1
    ensures forall k :: 0 <= k < |parts| ==> sep !in parts[k]
    decreases |s|
  {
    if sep in s then
      var i := IndexOf(s, sep);
      [s[..i]] + Split(s[i + 1..], sep)
    else
      [s]
  }

  /** The pieces written one after another */
  function Concat(parts: seq<string>): string {
    if parts == [] then "" else Concat(parts[..|parts| - 1]) + parts[|parts| - 1]
  }

  lemma {:induction false} ConcatAppend(a: seq<string>, b: seq<string>)
    ensures Concat(a + b) == Concat(a) + Concat(b)
  {
    if b == [] {
      assert a + b == a;
    } else {
      var n := |b| - 1;
      ConcatAppend(a, b[..n]);
      assert (a + b)[..|a + b| - 1] == a + b[..n];
      AppendAssoc(Concat(a), Concat(b[..n]), b[n]);
    }
  }

  /** strings.Join(parts, sep) */
  function Join(parts: seq<string>, sep: string): string {
    if |parts| == 0 then ""
    else if |parts| == 1 then parts[0]
    else parts[0] + sep + Join(parts[1..], sep)
  }

  /** Joining the pieces of a split with the separator gives back the string. */
  lemma {:induction false} JoinSplit(s: string, sep: char)
    ensures Join(Split(s, sep), [sep]) == s
    decreases |s|
  {
    if sep in s {
      var i := IndexOf(s, sep);
      var rest := s[i + 1..];
      var parts := Split(s, sep);
      assert parts == [s[..i]] + Split(rest, sep);
      assert parts[1..] == Split(rest, sep);
      JoinSplit(rest, sep);
      assert Join(parts, [sep]) == s[..i] + [sep] + rest;
      assert s == s[..i] + [sep] + rest;
    }
  }

  /** Splitting a join of separator-free pieces gives back the pieces. */
  lemma {:induction false} SplitJoin(parts: seq<string>, sep: char)
    requires |parts| >= 1
    requires forall k :: 0 <= k < |parts| ==> sep !in parts[k]
    ensures Split(Join(parts, [sep]), sep) == parts
  {
    if |parts| > 1 {
      var head, tail := parts[0], parts[1..];
      var rest := Join(tail, [sep]);
      assert Join(parts, [sep]) == head + [sep] + rest;
      assert forall k :: 0 <= k < |tail| ==> sep !in tail[k] by {
        forall k | 0 <= k < |tail| ensures sep !in tail[k] {
          assert tail[k] == parts[k + 1];
        }
      }
      SplitJoin(tail, sep);
      SplitCons(head, sep, rest);
      assert parts == [head] + tail;
    }
  }

  /** A sequence is what comes before an index, the element there, and
      what follows it. */
  lemma SeqAround<T>(a: seq<T>, i: nat)
    requires i < |a|
    ensures a == a[..i] + [a[i]] + a[i + 1..]
  {
  }

  /** A prefix one element longer ends with that element. */
  lemma TakeSnoc<T>(a: seq<T>, i: nat)
    requires i < |a|
    ensures a[..i + 1] == a[..i] + [a[i]]
  {
  }

  /** A separator-free piece followed by the separator is the first piece. */
  lemma SplitCons(head: string, sep: char, rest: string)
    requires sep !in head
    ensures Split(head + [sep] + rest, sep) == [head] + Split(rest, sep)
  {
    var s := head + [sep] + rest;
    assert s[..|head|] == head;
    IndexOfUnique(s, sep, |head|);
    assert s[|head| + 1..] == rest;
  }

  /** The first piece of a split is a prefix of the string. */
  lemma SplitHeadPrefix(s: string, sep: char)
    ensures HasPrefix(s, Split(s, sep)[0])
  {
  }

  /** Splitting around a separator occurrence splits both sides. */
  lemma {:induction false} SplitAppend(a: string, sep: char, b: string)
    ensures Split(a + [sep] + b, sep) == Split(a, sep) + Split(b, sep)
    decreases |a|
  {
    if sep in a {
      var i := IndexOf(a, sep);
      var head, tail := a[..i], a[i + 1..];
      SeqAround(a, i);
      SplitCons(head, sep, tail);
      SplitAppend(tail, sep, b);
      AppendAssoc(head + [sep], tail, [sep]);
      AppendAssoc(head + [sep], tail + [sep], b);
      SplitCons(head, sep, tail + [sep] + b);
      AppendAssoc([head], Split(tail, sep), Split(b, sep));
    } else {
      SplitCons(a, sep, b);
      assert Split(a, sep) == [a];
    }
  }

  // ---------------------------------------------------------------------
  // strings.TrimSpace and strings.Fields

  function TrimLeft(s: string): (r: string)
    ensures |r| <= |s| && r == s[|s| - |r|..]
    ensures r == [] || !IsSpace(r[0])
    ensures forall k :: 0 <= k < |s| - |r| ==> IsSpace(s[k])
  {
    if s != [] && IsSpace(s[0]) then TrimLeft(s[1..]) else s
  }

  function TrimRight(s: string): (r: string)
    ensures |r| <= |s| && r == s[..|r|]
    ensures r == [] || !IsSpace(r[|r| - 1])
    ensures forall k :: |r| <= k < |s| ==> IsSpace(s[k])
  {
    if s != [] && IsSpace(s[|s| - 1]) then TrimRight(s[..|s| - 1]) else s
  }

  /** strings.TrimSpace */
  function TrimSpace(s: string): (r: string)
    ensures r == [] || (!IsSpace(r[0]) && !IsSpace(r[|r| - 1]))
  {
    var l := TrimLeft(s);
    var r := TrimRight(l);
    assert r != [] ==> r[0] == l[0];
    r
  }

  /** The trimmed string is a piece of `s`, and only whitespace was cut off
      before and after it. */
  lemma TrimSpaceMeaning(s: string)
    ensures var r := TrimSpace(s);
      var i := |s| - |TrimLeft(s)|;
      i + |r| <= |s| && r == s[i..i + |r|] &&
      (forall k :: 0 <= k < i ==> IsSpace(s[k])) &&
      (forall k :: i + |r| <= k < |s| ==> IsSpace(s[k]))
  {
    var l := TrimLeft(s);
    var r := TrimRight(l);
    assert TrimSpace(s) == r;
    TrimPieces(s, l, r);
  }

  /** Cutting whitespace off the front and then off the back leaves a
      slice with only whitespace around it. */
  lemma TrimPieces(s: string, l: string, r: string)
    requires |l| <= |s| && l == s[|s| - |l|..]
    requires forall k :: 0 <= k < |s| - |l| ==> IsSpace(s[k])
    requires |r| <= |l| && r == l[..|r|]
    requires forall k :: |r| <= k < |l| ==> IsSpace(l[k])
    ensures var i := |s| - |l|;
      i + |r| <= |s| && r == s[i..i + |r|] &&
      (forall k :: 0 <= k < i ==> IsSpace(s[k])) &&
      (forall k :: i + |r| <= k < |s| ==> IsSpace(s[k]))
  {
    var i := |s| - |l|;
    forall k | i + |r| <= k < |s| ensures IsSpace(s[k]) {
      assert s[k] == l[k - i];
    }
  }

  /** Length of the run of non-space bytes that starts `s` */
  function WordLength(s: string): (n: nat)
    ensures n <= |s|
    ensures forall i :: 0 <= i < n ==> !IsSpace(s[i])
    ensures n < |s| ==> IsSpace(s[n])
  {
    if s == [] || IsSpace(s[0]) then 0 else 1 + WordLength(s[1..])
  }

  /** strings.Fields: the maximal runs of non-space bytes, in order */
  function Fields(s: string): (fs: seq<string>)
    ensures forall k :: 0 <= k < |fs| ==> fs[k] != []
    ensures forall k, i :: 0 <= k < |fs| && 0 <= i < |fs[k]| ==> !IsSpace(fs[k][i])
    decreases |s|
  {
    if s == [] then []
    else if IsSpace(s[0]) then Fields(s[1..])
    else
      var n := WordLength(s);
      [s[..n]] + Fields(s[n..])
  }

  /** A non-empty word free of whitespace */
  predicate IsWordOf(w: string) {
    w != [] && forall i :: 0 <= i < |w| ==> !IsSpace(w[i])
  }

  /** Whitespace before a text contributes no field. */
  lemma {:induction false} FieldsAfterSpace(sp: string, rest: string)
    requires forall i :: 0 <= i < |sp| ==> IsSpace(sp[i])
    ensures Fields(sp + rest) == Fields(rest)
    decreases |sp|
  {
    if sp != [] {
      assert (sp + rest)[1..] == sp[1..] + rest;
      FieldsAfterSpace(sp[1..], rest);
    } else {
      assert sp + rest == rest;
    }
  }

  /** A word ended by whitespace, or by the end of the text, is one field. */
  lemma FieldsAfterWord(w: string, rest: string)
    requires IsWordOf(w)
    requires rest == [] || IsSpace(rest[0])
    ensures Fields(w + rest) == [w] + Fields(rest)
  {
    WordLengthOf(w, rest);
    assert (w + rest)[..|w|] == w && (w + rest)[|w|..] == rest;
  }

  lemma {:induction false} WordLengthOf(w: string, rest: string)
    requires forall i :: 0 <= i < |w| ==> !IsSpace(w[i])
    requires rest == [] || IsSpace(rest[0])
    ensures WordLength(w + rest) == |w|
    decreases |w|
  {
    if w == [] {
      assert w + rest == rest;
    } else {
      assert (w + rest)[1..] == w[1..] + rest;
      WordLengthOf(w[1..], rest);
    }
  }

  /** Fields undoes a join of words with a run of whitespace: the fields
      are the maximal non-space runs, in order. */
  lemma {:induction false} FieldsJoin(ws: seq<string>, sep: string)
    requires forall k :: 0 <= k < |ws| ==> IsWordOf(ws[k])
    requires sep != [] && forall i :: 0 <= i < |sep| ==> IsSpace(sep[i])
    ensures Fields(Join(ws, sep)) == ws
  {
    if |ws| == 1 {
      FieldsAfterWord(ws[0], []);
      assert ws[0] + [] == ws[0];
    } else if |ws| > 1 {
      var rest := Join(ws[1..], sep);
      FieldsJoin(ws[1..], sep);
      FieldsAfterSpace(sep, rest);
      AppendAssoc(ws[0], sep, rest);
      FieldsAfterWord(ws[0], sep + rest);
      assert ws == [ws[0]] + ws[1..];
    }
  }

  // ---------------------------------------------------------------------
  // Decimal numbers: fmt's %d and strconv.Atoi

  const MAX_INT64: int := 0x7FFF_FFFF_FFFF_FFFF
  const MIN_INT64: int := -0x8000_0000_0000_0000
  const MAX_UINT64: int := 0xFFFF_FFFF_FFFF_FFFF
  const TWO_TO_64: int := 0x1_0000_0000_0000_0000

  /** Go's 64-bit `int` addition wraps around; this maps an exact sum to
      the value the machine holds (the representative of x modulo 2^64 in
      the signed 64-bit range). */
  function Wrap64(x: int): (r: int)
    ensures MIN_INT64 <= r <= MAX_INT64
    ensures MIN_INT64 <= x <= MAX_INT64 ==> r == x
    decreases if x > MAX_INT64 then x - MAX_INT64 else if x < MIN_INT64 then MIN_INT64 - x else 0
  {
    if x > MAX_INT64 then Wrap64(x - TWO_TO_64)
    else if x < MIN_INT64 then Wrap64(x + TWO_TO_64)
    else x
  }

  lemma {:induction false} WrapShift(x: int, k: nat)
    ensures Wrap64(x + k * TWO_TO_64) == Wrap64(x)
  {
    if k > 0 {
      WrapShift(x, k - 1);
      assert Wrap64(x + (k - 1) * TWO_TO_64 + TWO_TO_64) == Wrap64(x + (k - 1) * TWO_TO_64);
    }
  }

  lemma {:induction false} WrapOffset(x: int) returns (k: int)
    ensures Wrap64(x) == x + k * TWO_TO_64
    decreases if x > MAX_INT64 then x - MAX_INT64 else if x < MIN_INT64 then MIN_INT64 - x else 0
  {
    if x > MAX_INT64 {
      k := WrapOffset(x - TWO_TO_64);
      k := k - 1;
    } else if x < MIN_INT64 {
      k := WrapOffset(x + TWO_TO_64);
      k := k + 1;
    } else {
      k := 0;
    }
  }

  /** Wrapping after every addition equals wrapping once at the end. */
  lemma WrapAdd(a: int, b: int)
    ensures Wrap64(Wrap64(a) + b) == Wrap64(a + b)
  {
    var k := WrapOffset(a);
    if k >= 0 {
      WrapShift(a + b, k);
    } else {
      WrapShift(a + b + k * TWO_TO_64, -k);
    }
  }

  function DigitChar(d: nat): char
    requires d < 10
  {
    ('0' as int + d) as char
  }

  /** Decimal digits of `n`, most significant first, no leading zeros */
  function NatToString(n: nat): (s: string)
    ensures |s| >= 1
    ensures forall i :: 0 <= i < |s| ==> IsDigit(s[i])
  {
    if n < 10 then [DigitChar(n)] else NatToString(n / 10) + [DigitChar(n % 10)]
  }

  /** fmt's `%d` */
  function IntToString(i: int): string {
    if i < 0 then "-" + NatToString(-i) else NatToString(i)
  }

  /** `%d` writes a non-empty word that is never a lone "-". */
  lemma IntToStringWord(i: int)
    ensures IsWordOf(IntToString(i)) && IntToString(i) != "-"
  {
    var s := IntToString(i);
    if i < 0 {
      assert s[1..] == NatToString(-i);
    }
  }

  /** How strconv.ParseUint(s, 10, 64) ends: a syntax error (it returns 0),
      a range error (it returns the largest value and stops reading at the
      digit that overflows), or a value. */
  datatype Scan = Syntax | Overflow | Value(n: nat)

  function ScanStep(acc: nat, c: char): Scan {
    if !IsDigit(c) then Syntax
    else if acc * 10 + (c as int - '0' as int) > MAX_UINT64 then Overflow
    else Value(acc * 10 + (c as int - '0' as int))
  }

  function ScanFrom(s: string, acc: nat): Scan
    decreases |s|
  {
    if s == [] then Value(acc)
    else match ScanStep(acc, s[0])
      case Value(n) => ScanFrom(s[1..], n)
      case other => other
  }

  function ScanUnsigned(s: string): Scan {
    if s == [] then Syntax else ScanFrom(s, 0)
  }

  /** strconv.Atoi with its error dropped, as `n, _ := strconv.Atoi(s)`:
      an optional sign, then decimal digits; a syntax error gives 0 and a
      value outside the 64-bit range gives the nearest bound. */
  function Atoi(s: string): (n: int)
    ensures MIN_INT64 <= n <= MAX_INT64
  {
    if s == [] then 0
    else
      var neg := s[0] == '-';
      var digits := if s[0] == '+' || s[0] == '-' then s[1..] else s;
      match ScanUnsigned(digits)
      case Syntax => 0
      case Overflow => if neg then MIN_INT64 else MAX_INT64
      case Value(u) =>
        var v: int := u;
        if neg then (if v > -MIN_INT64 then MIN_INT64 else -v)
        else (if v > MAX_INT64 then MAX_INT64 else v)
  }

  lemma {:induction false} ScanSnoc(s: string, c: char, acc: nat, v: nat)
    requires ScanFrom(s, acc) == Value(v)
    ensures ScanFrom(s + [c], acc) == ScanStep(v, c)
    decreases |s|
  {
    if s == [] {
      assert [c][1..] == [];
    } else {
      assert (s + [c])[1..] == s[1..] + [c];
      var n := ScanStep(acc, s[0]).n;
      ScanSnoc(s[1..], c, n, v);
    }
  }

  lemma {:induction false} ScanNatToString(n: nat)
    requires n <= MAX_UINT64
    ensures ScanFrom(NatToString(n), 0) == Value(n)
  {
    if n < 10 {
      assert [DigitChar(n)][1..] == [];
    } else {
      ScanNatToString(n / 10);
      ScanSnoc(NatToString(n / 10), DigitChar(n % 10), 0, n / 10);
    }
  }

  /** Atoi reads back what %d writes, for every 64-bit integer. */
  lemma AtoiIntToString(i: int)
    requires MIN_INT64 <= i <= MAX_INT64
    ensures Atoi(IntToString(i)) == i
  {
    if i < 0 {
      var s := IntToString(i);
      ScanNatToString(-i);
      assert s[1..] == NatToString(-i);
    } else {
      var s := NatToString(i);
      ScanNatToString(i);
      assert s[0] != '-' && s[0] != '+';
    }
  }
}

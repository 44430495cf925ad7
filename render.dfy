/** The diagnostic rendering of descriptors and descriptor lists (the
    operator<< overloads). Integers are written in decimal; how a tensor is
    printed is not part of this model and is passed in as `showTensor`. */
module Render {
  import opened Tensors
  import opened Indices

  predicate IsDigit(c: char)
  {
    '0' <= c <= '9'
  }

  function DigitChar(d: nat): (c: char)
    requires d < 10
    ensures IsDigit(c) && (c as int) - ('0' as int) == d
  {
    (('0' as int) + d) as char
  }

  /** Canonical decimal digits: at least one, and no leading zero unless the
      text is exactly "0". */
  predicate IsNatText(s: string)
  {
    |s| >= 1 && (forall k :: 0 <= k < |s| ==> IsDigit(s[k])) && (s[0] == '0' ==> |s| == 1)
  }

  /** Canonical decimal for an integer: the digits of a natural number, or a
      minus sign followed by the digits of a positive one (no "-" alone, no
      "-0"). */
  predicate IsIntText(s: string)
  {
    IsNatText(s) || (|s| >= 2 && s[0] == '-' && IsNatText(s[1..]) && s[1] != '0')
  }

  /** Decimal digits of a natural number, most significant first, with no
      leading zero. */
  function NatToString(n: nat): (s: string)
    ensures IsNatText(s)
    ensures s[0] == '0' <==> n == 0
  {
    if n < 10 then [DigitChar(n)] else NatToString(n / 10) + [DigitChar(n % 10)]
  }

  /** How an int64 is written to a stream: a minus sign for a negative value,
      then the decimal digits of its magnitude. */
  function IntToString(i: int): (s: string)
    ensures IsIntText(s)
  {
    if i < 0 then
      var digits := NatToString(-i);
      assert ("-" + digits)[1..] == digits;
      "-" + digits
    else NatToString(i)
  }

  function DigitValue(c: char): nat
    requires IsDigit(c)
  {
    (c as int) - ('0' as int)
  }

  /** Reads decimal digits back. */
  function ParseNat(s: string): nat
    requires forall k :: 0 <= k < |s| ==> IsDigit(s[k])
  {
    if s == [] then 0 else ParseNat(s[..|s| - 1]) * 10 + DigitValue(s[|s| - 1])
  }

  /** Reads an integer text back. */
  function ParseInt(s: string): int
    requires IsIntText(s)
  {
    if s[0] == '-' then -(ParseNat(s[1..]) as int) else ParseNat(s)
  }

  lemma {:induction false} NatToStringRoundTrip(n: nat)
    ensures ParseNat(NatToString(n)) == n
  {
    if n >= 10 {
      var s := NatToString(n);
      assert s[..|s| - 1] == NatToString(n / 10);
      NatToStringRoundTrip(n / 10);
    }
  }

  /** The integer rendering loses nothing: it reads back to the same value. */
  lemma IntToStringRoundTrip(i: int)
    ensures ParseInt(IntToString(i)) == i
  {
    if i < 0 {
      var s := IntToString(i);
      assert s[1..] == NatToString(-i);
      NatToStringRoundTrip(-i);
    } else {
      NatToStringRoundTrip(i);
    }
  }

  /** Canonical digits that do not start with '0' read as a positive number. */
  lemma {:induction false} ParseNatPositive(s: string)
    requires IsNatText(s) && s[0] != '0'
    ensures ParseNat(s) >= 1
  {
    if |s| > 1 {
      var p := s[..|s| - 1];
      assert p[0] == s[0];
      ParseNatPositive(p);
    }
  }

  /** Canonical digits are exactly the rendering of the number they read as. */
  lemma {:induction false} NatTextCanonical(s: string)
    requires IsNatText(s)
    ensures NatToString(ParseNat(s)) == s
  {
    var d := DigitValue(s[|s| - 1]);
    assert DigitChar(d) == s[|s| - 1];
    if |s| == 1 {
      assert s[..0] == [];
    } else {
      var p := s[..|s| - 1];
      assert p[0] == s[0] && s[0] != '0';
      ParseNatPositive(p);
      NatTextCanonical(p);
      var n := ParseNat(s);
      assert n == ParseNat(p) * 10 + d;
      assert n / 10 == ParseNat(p) && n % 10 == d;
      assert s == p + [s[|s| - 1]];
    }
  }

  /** The converse of the round trip: an integer text is exactly the rendering
      of the integer it reads as, so the rendering is the only text that reads
      back to its value. */
  lemma IntTextCanonical(s: string)
    requires IsIntText(s)
    ensures IntToString(ParseInt(s)) == s
  {
    if s[0] == '-' {
      var digits := s[1..];
      ParseNatPositive(digits);
      NatTextCanonical(digits);
      assert s == "-" + digits;
    } else {
      NatTextCanonical(s);
    }
  }

  /** Position of the first ':' of a string, or its length when it has none. */
  function FirstColon(s: string): (k: nat)
    ensures k <= |s| && (k < |s| ==> s[k] == ':')
    ensures forall j :: 0 <= j < k ==> s[j] != ':'
  {
    if s == [] || s[0] == ':' then 0 else 1 + FirstColon(s[1..])
  }

  lemma {:induction false} FirstColonAt(a: string, tail: string)
    requires forall k :: 0 <= k < |a| ==> a[k] != ':'
    ensures FirstColon(a + ":" + tail) == |a|
  {
    if a != [] {
      assert (a + ":" + tail)[1..] == a[1..] + ":" + tail;
      FirstColonAt(a[1..], tail);
    }
  }

  datatype SliceText = Unparsed | Parsed(start: int, stop: int, step: int)

  /** Reads `start:stop:step` back. */
  function ParseSlice(s: string): SliceText
  {
    var i := FirstColon(s);
    if i == |s| then Unparsed
    else
      var rest := s[i + 1..];
      var j := FirstColon(rest);
      if j == |rest| then Unparsed
      else
        var a, b, c := s[..i], rest[..j], rest[j + 1..];
        if IsIntText(a) && IsIntText(b) && IsIntText(c) then Parsed(ParseInt(a), ParseInt(b), ParseInt(c))
        else Unparsed
  }

  /** Three integer texts joined by ':' read back as the three integers. */
  lemma ParseSliceOf(a: string, b: string, c: string)
    requires IsIntText(a) && IsIntText(b) && IsIntText(c)
    ensures ParseSlice(a + ":" + b + ":" + c) == Parsed(ParseInt(a), ParseInt(b), ParseInt(c))
  {
    var rest := b + ":" + c;
    var s := a + ":" + b + ":" + c;
    assert s == a + ":" + rest;
    FirstColonAt(a, rest);
    FirstColonAt(b, c);
    assert s[..|a|] == a && s[|a| + 1..] == rest;
    assert rest[..|b|] == b && rest[|b| + 1..] == c;
  }

  lemma ShowSliceParses(start: int, stop: int, step: int)
    ensures ParseSlice(IntToString(start) + ":" + IntToString(stop) + ":" + IntToString(step))
      == Parsed(start, stop, step)
  {
    ParseSliceOf(IntToString(start), IntToString(stop), IntToString(step));
    IntToStringRoundTrip(start);
    IntToStringRoundTrip(stop);
    IntToStringRoundTrip(step);
  }

  /** operator<< for a Slice: start:stop:step, which reads back to the three
      bounds. */
  function ShowSlice(start: int, stop: int, step: int): (s: string)
    ensures ParseSlice(s) == Parsed(start, stop, step)
  {
    ShowSliceParses(start, stop, step);
    IntToString(start) + ":" + IntToString(stop) + ":" + IntToString(step)
  }

  /** operator<< for one descriptor: fixed words for None, Ellipsis and
      booleans, an integer or a slice in a form that reads back to it, and a
      tensor as the tensor printer writes it. */
  function ShowIndex(x: TensorIndex, showTensor: Tensor -> string): (r: string)
    ensures x.None? ==> r == "None"
    ensures x.Ellipsis? ==> r == "..."
    ensures x.Boolean? ==> r == (if x.b then "true" else "false")
    ensures x.Integer? ==> IsIntText(r) && ParseInt(r) == x.n
    ensures x.Slice? ==> ParseSlice(r) == Parsed(x.start, x.stop, x.step)
    ensures x.IndexTensor? ==> r == showTensor(x.tensor)
  {
    match x
    case None => "None"
    case Ellipsis => "..."
    case Integer(n) => IntToStringRoundTrip(n); IntToString(n)
    case Boolean(b) => if b then "true" else "false"
    case Slice(start, stop, step) => ShowSlice(start, stop, step)
    case IndexTensor(t) => showTensor(t)
  }

  /** The renderings of a list's descriptors, separated by ", ". */
  function JoinShown(xs: seq<TensorIndex>, showTensor: Tensor -> string): string
  {
    if xs == [] then ""
    else if |xs| == 1 then ShowIndex(xs[0], showTensor)
    else JoinShown(xs[..|xs| - 1], showTensor) + ", " + ShowIndex(xs[|xs| - 1], showTensor)
  }

  /** Rendering two non-empty lists one after the other is rendering their
      concatenation: the separator stands exactly between neighbours. */
  lemma {:induction false} JoinShownAppend(xs: seq<TensorIndex>, ys: seq<TensorIndex>, showTensor: Tensor -> string)
    requires xs != [] && ys != []
    ensures JoinShown(xs + ys, showTensor) == JoinShown(xs, showTensor) + ", " + JoinShown(ys, showTensor)
  {
    var zs := ys[..|ys| - 1];
    assert (xs + ys)[..|xs + ys| - 1] == xs + zs;
    if zs == [] {
      assert xs + zs == xs;
    } else {
      JoinShownAppend(xs, zs, showTensor);
    }
  }

  lemma JoinShownUnfold(xs: seq<TensorIndex>, i: nat, showTensor: Tensor -> string)
    requires i < |xs|
    ensures JoinShown(xs[..i + 1], showTensor)
      == JoinShown(xs[..i], showTensor) + (if i > 0 then ", " else "") + ShowIndex(xs[i], showTensor)
  {
    assert xs[..i + 1][..i] == xs[..i];
  }

  lemma AppendAfter(s: string, prefix: string, joined: string, sep: string, shown: string)
    requires s == prefix + joined + sep
    ensures s + shown == prefix + (joined + sep + shown)
  {
  }

  /** Writing the next descriptor after the rendering so far, and its
      separator, gives the rendering of one more descriptor. */
  lemma JoinShownSnoc(xs: seq<TensorIndex>, i: nat, showTensor: Tensor -> string, s: string)
    requires i < |xs|
    requires s == "(" + JoinShown(xs[..i], showTensor) + (if i > 0 then ", " else "")
    ensures s + ShowIndex(xs[i], showTensor) == "(" + JoinShown(xs[..i + 1], showTensor)
  {
    JoinShownUnfold(xs, i, showTensor);
    AppendAfter(s, "(", JoinShown(xs[..i], showTensor), if i > 0 then ", " else "", ShowIndex(xs[i], showTensor));
  }

  /** operator<< for a descriptor list: "(" then the descriptors separated by
      ", " then ")". */
  method ShowIndices(xs: seq<TensorIndex>, showTensor: Tensor -> string) returns (s: string)
    ensures s == "(" + JoinShown(xs, showTensor) + ")"
  {
    s := "(";
    var i := 0;
    while i < |xs|
      invariant 0 <= i <= |xs|
      invariant s == "(" + JoinShown(xs[..i], showTensor) + (if 0 < i < |xs| then ", " else "")
    {
      JoinShownSnoc(xs, i, showTensor, s);
      s := s + ShowIndex(xs[i], showTensor);
      if i < |xs| - 1 {
        s := s + ", ";
      }
      i := i + 1;
    }
    assert xs[..|xs|] == xs;
    s := s + ")";
  }
}

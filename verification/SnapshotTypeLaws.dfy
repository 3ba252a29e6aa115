/** Reading the words and brackets of the type language, and what any accepted type looks like. */
module SnapshotTypeLaws {
  import opened Wire
  import opened SnapshotTypes

  /** A span stops where the class does. */
  lemma {:induction false} SpanExact(word: string, rest: string, kind: char -> bool)
    requires forall i :: 0 <= i < |word| ==> kind(word[i])
    requires rest == "" || !kind(rest[0])
    ensures Span(word + rest, kind) == |word|
    ensures (word + rest)[..|word|] == word && (word + rest)[|word|..] == rest
  {
    if word == "" {
      assert word + rest == rest;
    } else {
      assert (word + rest)[1..] == word[1..] + rest;
      SpanExact(word[1..], rest, kind);
    }
  }

  lemma {:induction false} DecimalRender(n: nat)
    ensures Decimal(RenderNat(n)) == n
    decreases n
  {
    var s := RenderNat(n);
    var d := [('0' as int + n % 10) as char];
    if n < 10 {
      assert s[..|s| - 1] == "";
    } else {
      DecimalRender(n / 10);
      assert s[..|s| - 1] == RenderNat(n / 10);
    }
  }

  /** Each word is read back as its own head. */
  lemma {:induction false} HeadWord(h: Head)
    requires h.Atom? ==> IsAtom(h.ty)
    ensures HeadOf(HeadText(h)) == Some(h)
  {
    match h {
      case Atom(ty) => AtomWord(ty);
      case _ =>
    }
  }

  lemma {:induction false} AtomWord(ty: Ty)
    requires IsAtom(ty)
    ensures HeadOf(AtomText(ty)) == Some(Atom(ty))
  {
  }

  lemma {:induction false} HeadChars(h: Head)
    requires h.Atom? ==> IsAtom(h.ty)
    ensures var w := HeadText(h); w != "" && !Digit(w[0]) && forall i :: 0 <= i < |w| ==> Alnum(w[i])
  {
  }

  // ----------------------------------------------------------------- round trip

  /** What may follow a type: nothing, or a character no word goes on with. */
  ghost predicate Ends(rest: string) {
    rest == "" || !Alnum(rest[0])
  }

  /** The head of `cs` is the word `h`, followed by `args`. */
  ghost predicate Headed(cs: string, h: Head, args: string) {
    var n := Span(cs, Alnum);
    HeadOf(cs[..n]) == Some(h) && cs[n..] == args
  }

  lemma {:induction false} ReadHead(h: Head, args: string)
    requires h.Atom? ==> IsAtom(h.ty)
    requires Ends(args)
    ensures Headed(HeadText(h) + args, h, args)
  {
    hide HeadOf, Span, HeadText;
    HeadWord(h);
    HeadChars(h);
    SpanExact(HeadText(h), args, Alnum);
  }

  lemma {:induction false} ParseAtom(ty: Ty, cs: string, rest: string, depth: nat)
    requires Headed(cs, Atom(ty), rest) && depth <= MAX_TY_DEPTH
    ensures ParseTyAt(cs, depth) == Done(ty, rest)
  {
    hide HeadOf, Span;
  }

  /** One-argument constructors. */
  lemma {:induction false} ParseOne(h: Head, cs: string, arg: string, t: Ty, rest: string, depth: nat)
    requires h.HOpt? || h.HList? || h.HFuture? || h.HStream? || (h.HSet? && IsKeyTy(t))
    requires Headed(cs, h, "(" + arg) && depth <= MAX_TY_DEPTH
    requires ParseTyAt(arg, depth + 1) == Done(t, ")" + rest)
    ensures ParseTyAt(cs, depth) == Done(if h.HSet? then Set(t) else Wrap(h, t), rest)
  {
    hide HeadOf, Span, HeadText;
    assert ("(" + arg)[1..] == arg && (")" + rest)[1..] == rest;
  }

  /** Two-argument constructors. */
  lemma {:induction false} ParseTwo(h: Head, cs: string, arg1: string, arg2: string, a: Ty, b: Ty, rest: string,
                                    depth: nat)
    requires h.HRes? || (h.HMap? && IsKeyTy(a))
    requires Headed(cs, h, "(" + arg1) && depth <= MAX_TY_DEPTH
    requires ParseTyAt(arg1, depth + 1) == Done(a, "," + arg2)
    requires ParseTyAt(arg2, depth + 1) == Done(b, ")" + rest)
    ensures ParseTyAt(cs, depth) == Done(if h.HMap? then Map(a, b) else Res(a, b), rest)
  {
    hide HeadOf, Span, HeadText;
    assert ("(" + arg1)[1..] == arg1 && ("," + arg2)[1..] == arg2 && (")" + rest)[1..] == rest;
  }

  lemma {:induction false} ParseTensor(cs: string, args: string, dims: seq<u64>, arg: string, t: Ty, rest: string,
                                       depth: nat)
    requires Headed(cs, HTensor, "(" + args) && depth <= MAX_TY_DEPTH
    requires ParseDims(args) == Done(dims, arg)
    requires ParseTyAt(arg, depth + 1) == Done(t, ")" + rest)
    ensures ParseTyAt(cs, depth) == Done(Tensor(dims, t), rest)
  {
    hide HeadOf, Span, HeadText, ParseDims;
    assert ("(" + args)[1..] == args && (")" + rest)[1..] == rest;
  }

  lemma {:induction false} ParseRef(cs: string, name: string, rest: string, depth: nat)
    requires Headed(cs, HTy, "(" + (name + (")" + rest))) && depth <= MAX_TY_DEPTH
    requires name != "" && ')' !in name
    ensures ParseTyAt(cs, depth) == Done(Named(name), rest)
  {
    var tail := name + (")" + rest);
    SpanExact(name, ")" + rest, NotClose);
    hide HeadOf, Span, HeadText;
    assert ("(" + tail)[1..] == tail;
    assert tail[|name| + 1..] == rest;
  }

  lemma {:induction false} AtomChars(ty: Ty)
    requires IsAtom(ty)
    ensures AtomText(ty) != "" && !Digit(AtomText(ty)[0])
  {
    HeadChars(Atom(ty));
  }

  lemma {:induction false} AppliedRest(h: Head, args: string, rest: string)
    requires !h.Atom?
    ensures Applied(h, args) + rest == HeadText(h) + ("(" + (args + (")" + rest)))
  {
    hide HeadText;
  }

  // ------------------------------------------------------------------ soundness

  function Chars(s: string): set<char> {
    set c | c in s
  }

  lemma {:induction false} SuffixChars(s: string, n: nat)
    ensures n <= |s| ==> Chars(s[n..]) <= Chars(s) && Chars(s[..n]) <= Chars(s)
  {
  }

  /** What an accepted parse says about the type and the text. */
  ghost predicate Holds(r: Parse<Ty>, cs: string, depth: nat) {
    r.Done? ==>
      && Gated(r.value)
      && depth + Depth(r.value) <= MAX_TY_DEPTH
      && Chars(r.rest) <= Chars(cs)
      && NameChars(r.value) <= Chars(cs)
  }

  /** Whatever text was accepted: the type is one the format can hold, no deeper than allowed, and
      its names and the rest are made of characters of the text. */
  lemma {:induction false} ParseSound(cs: string, depth: nat)
    ensures Holds(ParseTyAt(cs, depth), cs, depth)
    decreases MAX_TY_DEPTH + 1 - depth, 1
  {
    hide HeadOf, Span, ParseTyAt, Holds;
    if depth > MAX_TY_DEPTH {
      TooDeep(cs, depth);
      return;
    }
    var n := Span(cs, Alnum);
    SuffixChars(cs, n);
    match HeadOf(cs[..n]) {
      case None => NoHead(cs, depth);
      case Some(Atom(_)) => NoHead(cs, depth);
      case Some(HRes) => SoundTwo(HRes, cs, depth);
      case Some(HMap) => SoundTwo(HMap, cs, depth);
      case Some(HTy) => SoundRef(cs, depth);
      case Some(HTensor) => SoundTensor(cs, depth);
      case Some(h) => SoundOne(h, cs, depth);
    }
  }

  lemma {:induction false} TooDeep(cs: string, depth: nat)
    requires depth > MAX_TY_DEPTH
    ensures Holds(ParseTyAt(cs, depth), cs, depth)
  {
  }

  lemma {:induction false} NoHead(cs: string, depth: nat)
    requires depth <= MAX_TY_DEPTH
    requires HeadOf(cs[..Span(cs, Alnum)]).None? || HeadOf(cs[..Span(cs, Alnum)]).value.Atom?
    ensures Holds(ParseTyAt(cs, depth), cs, depth)
  {
    hide HeadOf, Span, Chars;
    SuffixChars(cs, Span(cs, Alnum));
  }

  /** An accepted one-argument constructor, taken apart. */
  lemma {:induction false} AcceptedOne(h: Head, cs: string, depth: nat)
    requires h.HOpt? || h.HList? || h.HFuture? || h.HStream? || h.HSet?
    requires depth <= MAX_TY_DEPTH && HeadOf(cs[..Span(cs, Alnum)]) == Some(h)
    requires ParseTyAt(cs, depth).Done?
    ensures var rest := cs[Span(cs, Alnum)..];
      && rest != ""
      && var a := ParseTyAt(rest[1..], depth + 1);
      && a.Done? && a.rest != "" && (h.HSet? ==> IsKeyTy(a.value))
      && ParseTyAt(cs, depth) == Done(if h.HSet? then Set(a.value) else Wrap(h, a.value), a.rest[1..])
  {
    hide HeadOf, Span, HeadText;
  }

  lemma {:induction false} SoundOne(h: Head, cs: string, depth: nat)
    requires h.HOpt? || h.HList? || h.HFuture? || h.HStream? || h.HSet?
    requires depth <= MAX_TY_DEPTH && HeadOf(cs[..Span(cs, Alnum)]) == Some(h)
    ensures Holds(ParseTyAt(cs, depth), cs, depth)
    decreases MAX_TY_DEPTH + 1 - depth, 0
  {
    hide HeadOf, Span, HeadText, Chars, ParseTyAt;
    if ParseTyAt(cs, depth).Done? {
      AcceptedOne(h, cs, depth);
      var rest := cs[Span(cs, Alnum)..];
      var a := ParseTyAt(rest[1..], depth + 1);
      SuffixChars(cs, Span(cs, Alnum));
      SuffixChars(rest, 1);
      ParseSound(rest[1..], depth + 1);
      SuffixChars(a.rest, 1);
    }
  }

  /** An accepted two-argument constructor, taken apart. */
  lemma {:induction false} AcceptedTwo(h: Head, cs: string, depth: nat)
    requires h.HRes? || h.HMap?
    requires depth <= MAX_TY_DEPTH && HeadOf(cs[..Span(cs, Alnum)]) == Some(h)
    requires ParseTyAt(cs, depth).Done?
    ensures var rest := cs[Span(cs, Alnum)..];
      && rest != ""
      && var a := ParseTyAt(rest[1..], depth + 1);
      && a.Done? && a.rest != "" && (h.HMap? ==> IsKeyTy(a.value))
      && var b := ParseTyAt(a.rest[1..], depth + 1);
      && b.Done? && b.rest != ""
      && ParseTyAt(cs, depth) == Done(if h.HMap? then Map(a.value, b.value) else Res(a.value, b.value), b.rest[1..])
  {
    hide HeadOf, Span, HeadText;
  }

  lemma {:induction false} SoundTwo(h: Head, cs: string, depth: nat)
    requires h.HRes? || h.HMap?
    requires depth <= MAX_TY_DEPTH && HeadOf(cs[..Span(cs, Alnum)]) == Some(h)
    ensures Holds(ParseTyAt(cs, depth), cs, depth)
    decreases MAX_TY_DEPTH + 1 - depth, 0
  {
    hide HeadOf, Span, Chars, ParseTyAt;
    if ParseTyAt(cs, depth).Done? {
      AcceptedTwo(h, cs, depth);
      var rest := cs[Span(cs, Alnum)..];
      var a := ParseTyAt(rest[1..], depth + 1);
      var b := ParseTyAt(a.rest[1..], depth + 1);
      SuffixChars(cs, Span(cs, Alnum));
      SuffixChars(rest, 1);
      ParseSound(rest[1..], depth + 1);
      SuffixChars(a.rest, 1);
      ParseSound(a.rest[1..], depth + 1);
      SuffixChars(b.rest, 1);
    }
  }

  lemma {:induction false} SoundRef(cs: string, depth: nat)
    requires depth <= MAX_TY_DEPTH && HeadOf(cs[..Span(cs, Alnum)]) == Some(HTy)
    ensures Holds(ParseTyAt(cs, depth), cs, depth)
  {
    hide HeadOf, Span;
    var rest := cs[Span(cs, Alnum)..];
    SuffixChars(cs, Span(cs, Alnum));
    if rest != "" {
      var end := Span(rest[1..], NotClose);
      SuffixChars(rest, 1);
      SuffixChars(rest[1..], end);
      SuffixChars(rest[1..], end + 1);
      assert Chars(rest[1..][..end]) == NameChars(Named(rest[1..][..end]));
      hide Chars;
    }
  }

  lemma {:induction false} SoundTensor(cs: string, depth: nat)
    requires depth <= MAX_TY_DEPTH && HeadOf(cs[..Span(cs, Alnum)]) == Some(HTensor)
    ensures Holds(ParseTyAt(cs, depth), cs, depth)
    decreases MAX_TY_DEPTH + 1 - depth, 0
  {
    hide HeadOf, Span, Chars, ParseDims;
    var rest := cs[Span(cs, Alnum)..];
    SuffixChars(cs, Span(cs, Alnum));
    if rest != "" && ParseDims(rest[1..]).Done? {
      SuffixChars(rest, 1);
      DimsSound(rest[1..]);
      var arg := ParseDims(rest[1..]).rest;
      ParseSound(arg, depth + 1);
      var a := ParseTyAt(arg, depth + 1);
      if a.Done? { SuffixChars(a.rest, 1); }
    }
  }

  lemma {:induction false} DimsSound(cs: string)
    requires ParseDims(cs).Done?
    ensures Chars(ParseDims(cs).rest) <= Chars(cs)
    decreases |cs|
  {
    hide Decimal;
    var n := Span(cs, Digit);
    if n == 0 {
    } else {
      SuffixChars(cs, n + 1);
      DimsSound(cs[n + 1..]);
    }
  }

  lemma {:induction false} NoWordNoType(cs: string, depth: nat)
    requires cs != "" && !Alnum(cs[0])
    ensures ParseTyAt(cs, depth).Error?
  {
    assert Span(cs, Alnum) == 0;
    assert cs[..0] == "";
    assert HeadOf("").None?;
  }

  /** No dimensions are written as no text at all: a lone semicolon in their place is refused. */
  lemma {:induction false} LoneSemicolonRefused(more: string)
    ensures ParseTyText(HeadText(HTensor) + ("(" + (";" + more))).Error?
  {
    hide HeadText, HeadOf;
    var args := ";" + more;
    ReadHead(HTensor, "(" + args);
    NoWordNoType(args, 1);
    assert ("(" + args)[1..] == args;
    SpanExact("", args, Digit);
    assert "" + args == args;
  }
}

// src/evf_loader.c: filter blocks of a configuration file. A file is the sequence of
// its preprocessed lines; end of file is seen as soon as the last one has been read.
module Loader {
  import opened Strings
  import opened Tokens

  const END_FILTER := "EndFilter"
  const FILTER_NAME := "FilterName"
  const PARAMS_LEN := 4096
  const NAME_LEN := 256

  datatype Block = Unfinished | Done(text: string, rest: seq<string>)

  // get_filter_params on the lines left, with `left` bytes of buffer: the text collected
  // up to EndFilter and the lines after it. A line that would leave less than two bytes
  // is dropped.
  function ReadBlock(lines: seq<string>, left: nat): Block
    requires left >= 2
    decreases |lines|
  {
    if lines == [] then Unfinished
    else if CaseCmp(lines[0], END_FILTER) == 0 then Done("", lines[1..])
    else if |lines| == 1 then Unfinished
    else if |lines[0]| < left - 2 then
      match ReadBlock(lines[1..], left - |lines[0]| - 1)
      case Unfinished => Unfinished
      case Done(text, rest) => Done(lines[0] + " " + text, rest)
    else ReadBlock(lines[1..], left)
  }

  // Subtraction of size_t, which wraps.
  function SizeSub(a: nat, b: nat): nat {
    if a >= b then a - b else 0x1_0000_0000_0000_0000 - (b - a) % 0x1_0000_0000_0000_0000
  }

  predicate Line(s: string) {
    NUL !in s
  }

  // get_filter_params: 0, or -2 when the file ends first, and the next line to read.
  method GetFilterParams(lines: seq<string>, start: nat, buf: array<char>)
    returns (ret: int, pos: nat)
    requires buf.Length >= 2 && start <= |lines| && forall i :: 0 <= i < |lines| ==> Line(lines[i])
    modifies buf
    ensures pos <= |lines|
    ensures match ReadBlock(lines[start..], buf.Length)
            case Unfinished => ret == -2
            case Done(text, rest) => ret == 0 && lines[pos..] == rest && |text| + 2 <= buf.Length
                                     && buf[..|text|] == text && buf[|text|] == NUL && NUL !in text
  {
    hide CaseCmp;
    buf[0] := NUL;
    pos := start;
    var off, left := 0, buf.Length;
    ghost var text := "";
    while true
      invariant start <= pos <= |lines| && off + left == buf.Length && left >= 2
      invariant text == buf[..off] && buf[off] == NUL && NUL !in text
      invariant ReadBlock(lines[start..], buf.Length) == match ReadBlock(lines[pos..], left)
                                                         case Unfinished => Unfinished
                                                         case Done(t, rest) => Done(text + t, rest)
      decreases |lines| - pos
    {
      if pos == |lines| {
        return -2, pos;
      }
      var line := lines[pos];
      ghost var here := lines[pos..];
      assert here[1..] == lines[pos + 1..];
      pos := pos + 1;
      if CaseCmp(line, END_FILTER) == 0 {
        return 0, pos;
      }
      if pos == |lines| {
        return -2, pos;
      }
      if left > 0 && |line| < SizeSub(left, 2) {
        ghost var t0 := text;
        Append(buf, off, line);
        off, left := off + |line| + 1, left - (|line| + 1);
        text := t0 + line + " ";
        assert buf[..off] == text;
      }
    }
  }

  // strcpy of a line, a blank and a NUL.
  method Append(buf: array<char>, off: nat, line: string)
    requires off + |line| + 2 <= buf.Length
    modifies buf
    ensures buf[..off] == old(buf[..off])
    ensures buf[off..off + |line| + 1] == line + " " && buf[off + |line| + 1] == NUL
  {
    var i := 0;
    while i < |line|
      invariant 0 <= i <= |line| && buf[..off] == old(buf[..off]) && buf[off..off + i] == line[..i]
    {
      buf[off + i] := line[i];
      i := i + 1;
    }
    buf[off + |line|] := NUL;
    buf[off + |line|] := ' ';
    buf[off + |line| + 1] := NUL;
  }

  // ---- Blocks as they are written ----

  // Each line followed by one blank.
  function Join(lines: seq<string>): string {
    if lines == [] then "" else lines[0] + " " + Join(lines[1..])
  }

  predicate BodyLines(lines: seq<string>) {
    forall i :: 0 <= i < |lines| ==> !SameUpToCase(lines[i], END_FILTER)
  }

  // A block is collected whole exactly when its lines and blanks leave two bytes free.
  lemma {:induction false} CollectedIffFits(body: seq<string>, end: string, rest: seq<string>, left: nat)
    requires BodyLines(body) && SameUpToCase(end, END_FILTER) && left >= 2
    ensures ReadBlock(body + [end] + rest, left) == Done(Join(body), rest) <==> |Join(body)| + 2 <= left
    ensures ReadBlock(body + [end] + rest, left).Done?
    ensures ReadBlock(body + [end] + rest, left).rest == rest
    ensures |ReadBlock(body + [end] + rest, left).text| + 2 <= left
    ensures |ReadBlock(body + [end] + rest, left).text| <= |Join(body)|
    decreases |body|
  {
    hide CaseCmp, SameUpToCase;
    var all := body + [end] + rest;
    CaseCmpZero(all[0], END_FILTER);
    if body == [] {
      assert all[0] == end && all[1..] == rest;
    } else {
      assert all[1..] == body[1..] + [end] + rest;
      if |body[0]| < left - 2 {
        CollectedIffFits(body[1..], end, rest, left - |body[0]| - 1);
        var text := ReadBlock(all[1..], left - |body[0]| - 1).text;
        assert (body[0] + " " + text)[|body[0]| + 1..] == text;
        assert Join(body)[|body[0]| + 1..] == Join(body[1..]);
      } else {
        CollectedIffFits(body[1..], end, rest, left);
      }
    }
  }

  // The lines marked as kept.
  function Kept(body: seq<string>, kept: seq<bool>): seq<string>
    requires |body| == |kept|
    decreases |body|
  {
    if body == [] then []
    else
      var n := |body| - 1;
      Kept(body[..n], kept[..n]) + if kept[n] then [body[n]] else []
  }

  // Does a line still fit behind these?
  predicate Fits(line: string, before: seq<string>, left: nat) {
    |Join(before)| + |line| + 2 < left
  }

  // Exactly the lines are kept that fit behind those kept before them.
  predicate KeptRight(body: seq<string>, kept: seq<bool>, left: nat) {
    |kept| == |body| && forall i :: 0 <= i < |body| ==> (kept[i] <==> Fits(body[i], Kept(body[..i], kept[..i]), left))
  }

  // Those are what is collected of a block, whether all of it fits or not.
  lemma {:induction false} KeptExact(body: seq<string>, end: string, rest: seq<string>, left: nat)
    returns (kept: seq<bool>)
    requires BodyLines(body) && SameUpToCase(end, END_FILTER) && left >= 2
    ensures KeptRight(body, kept, left)
    ensures ReadBlock(body + [end] + rest, left) == Done(Join(Kept(body, kept)), rest)
    decreases |body|
  {
    hide CaseCmp, SameUpToCase, KeptRight, Kept;
    var all := body + [end] + rest;
    CaseCmpZero(all[0], END_FILTER);
    if body == [] {
      kept := [];
      NoneKept(left);
      assert all[0] == end && all[1..] == rest;
    } else {
      var first, tail := body[0], body[1..];
      assert all[1..] == tail + [end] + rest && body == [first] + tail;
      var take := |first| < left - 2;
      var more := KeptExact(tail, end, rest, if take then left - |first| - 1 else left);
      kept := [take] + more;
      SameLength(tail, more, if take then left - |first| - 1 else left);
      KeptCons(first, take, tail, more);
      KeptRightCons(first, tail, more, left);
      var text := Join(Kept(tail, more));
      assert take ==> first + " " + text == Join(Kept(body, kept));
      assert !take ==> text == "" + text;
    }
  }

  lemma NoneKept(left: nat)
    ensures KeptRight([], [], left) && Kept([], []) == []
  {
  }

  lemma SameLength(body: seq<string>, kept: seq<bool>, left: nat)
    requires KeptRight(body, kept, left)
    ensures |body| == |kept|
  {
  }

  lemma KeptRightCons(first: string, tail: seq<string>, more: seq<bool>, left: nat)
    requires left >= 2
    requires KeptRight(tail, more, if |first| < left - 2 then left - |first| - 1 else left)
    ensures KeptRight([first] + tail, [|first| < left - 2] + more, left)
  {
    var take := |first| < left - 2;
    var body, kept := [first] + tail, [take] + more;
    hide Kept;
    forall i | 0 <= i < |body| ensures kept[i] <==> Fits(body[i], Kept(body[..i], kept[..i]), left) {
      if i == 0 {
        NoneKept(left);
        assert body[..0] == [] && kept[..0] == [];
      } else {
        assert body[..i] == [first] + tail[..i - 1] && kept[..i] == [take] + more[..i - 1];
        KeptCons(first, take, tail[..i - 1], more[..i - 1]);
      }
    }
  }

  lemma {:induction false} KeptCons(first: string, take: bool, tail: seq<string>, more: seq<bool>)
    requires |tail| == |more|
    ensures var kept, after := Kept([first] + tail, [take] + more), Kept(tail, more);
            && kept == (if take then [first] else []) + after
            && Join(kept) == (if take then first + " " else "") + Join(after)
    decreases |tail|
  {
    var all, marks := [first] + tail, [take] + more;
    if tail == [] {
      assert all[..0] == [] && marks[..0] == [];
    } else {
      var n := |tail| - 1;
      KeptCons(first, take, tail[..n], more[..n]);
      assert all[..n + 1] == [first] + tail[..n] && marks[..n + 1] == [take] + more[..n];
    }
    var kept, after := Kept(all, marks), Kept(tail, more);
    if take {
      assert kept[1..] == after;
    } else {
      assert kept == after;
    }
  }

  // A block is finished exactly when an EndFilter follows.
  lemma {:induction false} DoneIffEnds(lines: seq<string>, left: nat)
    requires left >= 2
    ensures ReadBlock(lines, left).Done? <==> exists i :: 0 <= i < |lines| && SameUpToCase(lines[i], END_FILTER)
    decreases |lines|
  {
    hide CaseCmp, SameUpToCase;
    if lines != [] {
      CaseCmpZero(lines[0], END_FILTER);
      var more := lines[1..];
      DoneIffEnds(more, if |lines[0]| < left - 2 then left - |lines[0]| - 1 else left);
      if i :| 0 <= i < |more| && SameUpToCase(more[i], END_FILTER) {
        assert SameUpToCase(lines[i + 1], END_FILTER);
      }
      if i :| 1 <= i < |lines| && SameUpToCase(lines[i], END_FILTER) {
        assert more[i - 1] == lines[i];
      }
    }
  }

  // A parameter line: any number of items, and blanks after the last one, which the
  // reader keeps; it has stripped those before the first.
  datatype ParamLine = ParamLine(items: seq<Item>, trail: string)
  {
    predicate Valid() {
      items != [] && items[0].pad == [] && Separated(items) && AllSpaces(trail)
    }

    function Text(): string {
      Write(items) + trail
    }
  }

  predicate AllValid(lines: seq<ParamLine>) {
    forall i :: 0 <= i < |lines| ==> lines[i].Valid()
  }

  function Texts(lines: seq<ParamLine>): seq<string> {
    seq(|lines|, i requires 0 <= i < |lines| => lines[i].Text())
  }

  function AllItems(lines: seq<ParamLine>): seq<Item> {
    if lines == [] then [] else lines[0].items + AllItems(lines[1..])
  }

  // The same items in the joined text: the blanks that end one line, and the one the
  // loader adds, come before the next. `before` is what precedes the first.
  function Laid(lines: seq<ParamLine>, before: string): seq<Item>
    requires AllValid(lines)
  {
    if lines == [] then []
    else
      var items := lines[0].items;
      [items[0].(pad := before)] + items[1..] + Laid(lines[1..], lines[0].trail + " ")
  }

  // The blanks at the very end.
  function LastBlanks(lines: seq<ParamLine>, before: string): string {
    if lines == [] then before else lines[|lines| - 1].trail + " "
  }

  lemma {:induction false} WriteAppend(a: seq<Item>, b: seq<Item>)
    ensures Write(a + b) == Write(a) + Write(b)
    decreases |a|
  {
    hide Item.Text;
    if a == [] {
      assert a + b == b;
    } else {
      WriteAppend(a[1..], b);
      assert (a + b)[1..] == a[1..] + b;
    }
  }

  lemma PaddedText(it: Item, before: string)
    requires it.pad == []
    ensures it.(pad := before).Text() == before + it.Text()
  {
    var padded := it.(pad := before);
    assert padded.Body() == it.Body() && padded.Sign() == it.Sign();
    hide Item.Body, Item.Sign;
  }

  lemma PaddedFirst(items: seq<Item>, before: string)
    requires items != [] && items[0].pad == []
    ensures Write([items[0].(pad := before)] + items[1..]) == before + Write(items)
  {
    hide Item.Text;
    PaddedText(items[0], before);
    assert ([items[0].(pad := before)] + items[1..])[1..] == items[1..];
  }

  lemma {:induction false} JoinIsWrite(lines: seq<ParamLine>, before: string)
    requires AllValid(lines)
    ensures before + Join(Texts(lines)) == Write(Laid(lines, before)) + LastBlanks(lines, before)
    decreases |lines|
  {
    hide Write, Separated;
    if lines == [] {
      WriteNothing(before);
      assert before + "" == before;
    } else {
      var l, rest := lines[0], lines[1..];
      var gap := l.trail + " ";
      JoinIsWrite(rest, gap);
      PaddedFirst(l.items, before);
      WriteAppend([l.items[0].(pad := before)] + l.items[1..], Laid(rest, gap));
      assert Texts(lines)[1..] == Texts(rest);
      Regroup(before, Write(l.items), l.trail, Join(Texts(rest)), Write(Laid(rest, gap)), LastBlanks(rest, gap));
    }
  }

  lemma Regroup(before: string, text: string, trail: string, more: string, w: string, end: string)
    requires trail + " " + more == w + end
    ensures before + ((text + trail) + " " + more) == ((before + text) + w) + end
  {
    assert (text + trail) + " " + more == text + (trail + " " + more);
    assert before + (text + (w + end)) == ((before + text) + w) + end;
  }

  predicate SameButPad(a: seq<Item>, b: seq<Item>) {
    |a| == |b| && forall i :: 0 <= i < |a| ==>
      a[i].name == b[i].name && a[i].value == b[i].value && a[i].quote == b[i].quote
  }

  lemma {:induction false} LaidIsSame(lines: seq<ParamLine>, before: string)
    requires AllValid(lines) && AllSpaces(before)
    ensures SameButPad(Laid(lines, before), AllItems(lines)) && Separated(Laid(lines, before))
    ensures lines != [] ==> Laid(lines, before) != [] && Laid(lines, before)[0].pad == before
    decreases |lines|
  {
    hide SameButPad, Separated;
    if lines == [] {
      NothingSame();
    } else {
      var items, gap := lines[0].items, lines[0].trail + " ";
      BlanksJoin(lines[0].trail);
      LaidIsSame(lines[1..], gap);
      var front, more := [items[0].(pad := before)] + items[1..], Laid(lines[1..], gap);
      assert lines[0].Valid();
      FirstPadded(items, before);
      SameAppend(front, items, more, AllItems(lines[1..]));
      SeparatedAppend(front, more);
    }
  }

  lemma NothingSame()
    ensures SameButPad([], []) && Separated([])
  {
  }

  lemma BlanksJoin(trail: string)
    requires AllSpaces(trail)
    ensures AllSpaces(trail + " ")
  {
  }

  lemma FirstPadded(items: seq<Item>, before: string)
    requires items != [] && Separated(items) && AllSpaces(before)
    ensures var front := [items[0].(pad := before)] + items[1..];
            SameButPad(front, items) && Separated(front)
  {
    hide Item.Valid;
    PaddedValid(items[0], before);
    var front := [items[0].(pad := before)] + items[1..];
    assert forall i :: 0 < i < |items| ==> front[i] == items[i];
  }

  lemma SameAppend(a: seq<Item>, b: seq<Item>, a': seq<Item>, b': seq<Item>)
    requires SameButPad(a, b) && SameButPad(a', b')
    ensures SameButPad(a + a', b + b')
  {
  }

  lemma PaddedValid(it: Item, before: string)
    requires it.Valid() && AllSpaces(before)
    ensures it.(pad := before).Valid()
  {
  }

  lemma SeparatedAppend(a: seq<Item>, b: seq<Item>)
    requires Separated(a) && Separated(b) && (b != [] ==> b[0].pad != [])
    ensures Separated(a + b)
  {
    hide Item.Valid;
  }

  lemma LastItem(lines: seq<ParamLine>)
    requires AllValid(lines) && lines != []
    ensures var all, last := AllItems(lines), lines[|lines| - 1].items;
            all != [] && all[|all| - 1] == last[|last| - 1]
  {
    hide Separated;
    if |lines| > 1 { LastItem(lines[1..]); }
  }

  // Nothing but blanks that the parser puts up with at the end of a block: none beyond
  // the loader's own, and that only behind a value without quotes.
  predicate EndsWell(lines: seq<ParamLine>) {
    lines == [] ||
    (var last := lines[|lines| - 1]; last.trail == [] && last.items != [] && last.items[|last.items| - 1].quote.Bare?)
  }

  // A block of parameters in any accepted form, with blanks wherever the reader leaves
  // them, is read as written exactly when its last value is not quoted and no blank
  // follows it on its line: the loader's own blank after the line is then the one that
  // ends the value, and is otherwise taken for one more name.
  lemma BlockParsesIff(lines: seq<ParamLine>, names: seq<string>)
    requires AllValid(lines) && Bindable(AllItems(lines), names, map[]) && Find(names, "").NotFound?
    ensures Parse(Join(Texts(lines)), names, map[])
         == if EndsWell(lines) then Bound(Bindings(AllItems(lines), names, map[])) else Unknown("")
  {
    hide Find, Write, Bindable, Separated, Item.Valid, CleanEnd, Laid, Bindings, SameButPad, EndsWell, AllItems, Texts;
    var laid, end := Laid(lines, ""), LastBlanks(lines, "");
    JoinIsWrite(lines, "");
    assert "" + Join(Texts(lines)) == Join(Texts(lines));
    LaidIsSame(lines, "");
    SameBindable(laid, AllItems(lines), names);
    SameBindings(laid, AllItems(lines), names, map[]);
    EndIsClean(lines, laid);
    ReadsBack(laid, end, names, map[]);
  }

  lemma EndIsClean(lines: seq<ParamLine>, laid: seq<Item>)
    requires AllValid(lines) && SameButPad(laid, AllItems(lines))
    ensures CleanEnd(laid, LastBlanks(lines, "")) <==> EndsWell(lines)
    ensures AllSpaces(LastBlanks(lines, ""))
  {
    hide Separated;
    if lines != [] {
      LastItem(lines);
      assert lines[|lines| - 1].Valid();
    }
  }

  lemma SameBindable(a: seq<Item>, b: seq<Item>, names: seq<string>)
    requires SameButPad(a, b) && Bindable(b, names, map[])
    ensures Bindable(a, names, map[])
  {
    hide Find;
  }

  lemma {:induction false} SameBindings(a: seq<Item>, b: seq<Item>, names: seq<string>, bound: map<nat, string>)
    requires SameButPad(a, b)
    ensures Bindings(a, names, bound) == Bindings(b, names, bound)
    decreases |a|
  {
    hide Find;
    if a != [] && Find(names, a[0].name).Found? {
      SameBindings(a[1..], b[1..], names, bound[Find(names, a[0].name).at := a[0].value]);
    }
  }

  // From file to values: the lines of a block that fits, read and then parsed.
  lemma BlockReadAndParsed(lines: seq<ParamLine>, names: seq<string>, end: string, rest: seq<string>)
    requires AllValid(lines) && Bindable(AllItems(lines), names, map[]) && Find(names, "").NotFound?
    requires SameUpToCase(end, END_FILTER) && |Join(Texts(lines))| + 2 <= PARAMS_LEN
    ensures var block := ReadBlock(Texts(lines) + [end] + rest, PARAMS_LEN);
            && block.Done? && block.rest == rest
            && Parse(block.text, names, map[])
               == if EndsWell(lines) then Bound(Bindings(AllItems(lines), names, map[])) else Unknown("")
  {
    hide Item.Text, Item.Valid, Find, Bindable, Parse, Bindings, SameUpToCase, Join, ReadBlock, EndsWell;
    hide ParamLine.Text;
    forall i | 0 <= i < |lines| ensures !SameUpToCase(Texts(lines)[i], END_FILTER) {
      LineIsNoEnd(lines[i], END_FILTER);
    }
    CollectedIffFits(Texts(lines), end, rest, PARAMS_LEN);
    BlockParsesIff(lines, names);
  }

  // A parameter line has a blank or an equals sign in it, EndFilter has not.
  lemma LineIsNoEnd(l: ParamLine, word: string)
    requires l.Valid() && forall c :: c in word ==> !IsSpace(c) && c != '='
    ensures !SameUpToCase(l.Text(), word)
  {
    var it, t := l.items[0], l.Text();
    var k := |it.name|;
    assert it.Valid();
    assert IsSpace(t[k]) || t[k] == '=' by {
      var tail := it.left + (it.Sign() + (it.right + it.Body()));
      assert it.Text() == it.pad + (it.name + tail);
      assert t == it.name + (tail + Write(l.items[1..]) + l.trail);
      assert t[k] == tail[0];
      if it.left == [] {
        assert tail[0] == it.Sign()[0];
      } else {
        assert tail[0] == it.left[0];
      }
    }
    if k < |word| {
      assert word[k] in word;
      PlainLetter(t[k], word[k]);
    }
  }

  lemma PlainLetter(c: char, d: char)
    requires (IsSpace(c) || c == '=') && !IsSpace(d) && d != '='
    ensures !SameLetter(c, d)
  {
  }

  // ---- The whole file ----

  // get_filter_name on one line: the name after FilterName and one separating character.
  datatype Header = NoHeader | Named(name: string)

  function ReadHeader(line: string): Header {
    if |line| < |FILTER_NAME| || CaseCmp(line[..|FILTER_NAME|], FILTER_NAME) != 0 then NoHeader
    else
      var t := SkipSpaces(Past(line, |FILTER_NAME|));
      var u := SkipSpaces(DropSign(t));
      Named(if |u| < NAME_LEN then u else u[..NAME_LEN - 1])
  }

  // A header as it may be written: the keyword in any case, one character of any kind,
  // blanks with or without one equals sign, and the name.
  datatype HeaderLine = HeaderLine(keyword: string, sep: char, left: string, eq: bool, right: string, name: string)
  {
    predicate Valid() {
      && SameUpToCase(keyword, FILTER_NAME)
      && AllSpaces(left) && AllSpaces(right) && (!eq ==> right == [])
      && (name != [] ==> !IsSpace(name[0]) && (!eq ==> name[0] != '='))
    }

    function Text(): string {
      keyword + ([sep] + (left + ((if eq then "=" else "") + (right + name))))
    }
  }

  // What there is room for in the buffer.
  function Clipped(name: string): string {
    if |name| < 256 then name else name[..255]
  }

  // It is read as exactly its name.
  lemma HeaderReadBack(h: HeaderLine)
    requires h.Valid()
    ensures ReadHeader(h.Text()) == Named(Clipped(h.name))
  {
    assert |h.keyword| == |FILTER_NAME|;
    hide CaseCmp, SameUpToCase, SkipSpaces, DropSign;
    var after := h.left + ((if h.eq then "=" else "") + (h.right + h.name));
    KeywordCut(h.keyword, h.sep, after);
    CaseCmpZero(h.keyword, FILTER_NAME);
    SignSkippedOnce(h.left, h.eq, h.right, h.name);
  }

  lemma KeywordCut(keyword: string, sep: char, after: string)
    ensures var line := keyword + ([sep] + after);
            |line| > |keyword| && line[..|keyword|] == keyword && Past(line, |keyword|) == after
  {
  }

  lemma SignSkippedOnce(left: string, eq: bool, right: string, name: string)
    requires AllSpaces(left) && AllSpaces(right) && (!eq ==> right == [])
    requires name != [] ==> !IsSpace(name[0]) && (!eq ==> name[0] != '=')
    ensures SkipSpaces(DropSign(SkipSpaces(left + ((if eq then "=" else "") + (right + name))))) == name
  {
    hide SkipSpaces;
    SkipBlanks(right, name);
    if eq {
      var body := "=" + (right + name);
      SkipBlanks(left, body);
      assert body[1..] == right + name;
    } else {
      assert "" + (right + name) == name == right + name;
      SkipBlanks(left, name);
    }
  }

  // Any other line is rejected.
  lemma HeaderIffKeyword(line: string)
    ensures ReadHeader(line).Named? <==> |line| >= 10 && SameUpToCase(line[..10], "FilterName")
  {
    assert |FILTER_NAME| == 10;
    if |line| >= 10 { CaseCmpZero(line[..10], FILTER_NAME); }
  }

  datatype Made<F> = Refused | Made(filter: F)
  datatype Loaded<F> = NoName | NoParams | NotCreated | Filters(fs: seq<F>)

  // One pass of the loop of evf_load_filters, for a given way of creating a filter from
  // its name and parameters: the end of the loop, or a filter and the lines left.
  datatype Pass<F> = End(result: Loaded<F>) | More(filter: F, rest: seq<string>)

  function LoadOne<F>(lines: seq<string>, create: (string, string) -> Made<F>): (r: Pass<F>)
    ensures r.More? ==> |r.rest| < |lines|
  {
    if |lines| <= 1 then End(Filters([]))
    else
      match ReadHeader(lines[0])
      case NoHeader => End(NoName)
      case Named(name) =>
        BlockShrinks(lines[1..], PARAMS_LEN);
        match ReadBlock(lines[1..], PARAMS_LEN)
        case Unfinished => End(NoParams)
        case Done(text, rest) =>
          match create(name, text)
          case Refused => End(NotCreated)
          case Made(f) => More(f, rest)
  }

  // Filters already loaded, before what the rest of the file comes to.
  function After<F>(filters: seq<F>, r: Loaded<F>): Loaded<F> {
    match r
    case Filters(fs) => Filters(filters + fs)
    case e => e
  }

  lemma AfterMore<F>(filters: seq<F>, f: F, r: Loaded<F>)
    ensures After(filters, After([f], r)) == After(filters + [f], r)
  {
    if r.Filters? { assert filters + ([f] + r.fs) == (filters + [f]) + r.fs; }
  }

  lemma AfterEnd<F>(filters: seq<F>, r: Loaded<F>)
    requires r.Filters? ==> r.fs == []
    ensures After(filters, r) == if r.Filters? then Filters(filters) else r
  {
  }

  lemma AfterNone<F>(r: Loaded<F>)
    ensures After([], r) == r
  {
    if r.Filters? { assert [] + r.fs == r.fs; }
  }

  function Load<F>(lines: seq<string>, create: (string, string) -> Made<F>): Loaded<F>
    decreases |lines|
  {
    match LoadOne(lines, create)
    case End(result) => result
    case More(f, rest) =>
      After([f], Load(rest, create))
  }

  lemma {:induction false} BlockShrinks(lines: seq<string>, left: nat)
    requires left >= 2
    ensures ReadBlock(lines, left).Done? ==> |ReadBlock(lines, left).rest| < |lines|
    ensures ReadBlock(lines, left).Done? ==>
              ReadBlock(lines, left).rest == lines[|lines| - |ReadBlock(lines, left).rest|..]
    decreases |lines|
  {
    if |lines| > 1 && CaseCmp(lines[0], END_FILTER) != 0 {
      BlockShrinks(lines[1..], if |lines[0]| < left - 2 then left - |lines[0]| - 1 else left);
    }
  }

  method LoadFilters<F>(lines: seq<string>, create: (string, string) -> Made<F>) returns (r: Loaded<F>)
    requires forall i :: 0 <= i < |lines| ==> Line(lines[i])
    ensures r == Load(lines, create)
  {
    hide LoadOne, Line, After;
    AfterNone(Load(lines, create));
    var params := new char[PARAMS_LEN];
    var filters: seq<F> := [];
    var pos := 0;
    assert lines[0..] == lines;
    while true
      invariant 0 <= pos <= |lines|
      invariant Load(lines, create) == After(filters, Load(lines[pos..], create))
      decreases |lines| - pos
    {
      var pass, next := LoadNext(lines, pos, params, create);
      if pass.End? {
        AfterEnd(filters, pass.result);
        return if pass.result.Filters? then Filters(filters) else pass.result;
      }
      AfterMore(filters, pass.filter, Load(lines[next..], create));
      filters := filters + [pass.filter];
      pos := next;
    }
  }

  method LoadNext<F>(lines: seq<string>, pos: nat, params: array<char>, create: (string, string) -> Made<F>)
    returns (pass: Pass<F>, next: nat)
    requires params.Length == PARAMS_LEN && pos <= |lines| && forall i :: 0 <= i < |lines| ==> Line(lines[i])
    modifies params
    ensures pass == LoadOne(lines[pos..], create)
    ensures pass.More? ==> pos < next <= |lines| && lines[next..] == pass.rest
    ensures pass.End? && pass.result.Filters? ==> pass.result.fs == []
  {
    hide ReadHeader, ReadBlock, ParamText, Line;
    next := pos;
    if pos + 1 >= |lines| {
      return End(Filters([])), pos;
    }
    ghost var here := lines[pos..];
    assert here[1..] == lines[pos + 1..];
    var header := ReadHeader(lines[pos]);
    if header.NoHeader? {
      return End(NoName), pos;
    }
    BlockShrinks(here[1..], PARAMS_LEN);
    var ret;
    ret, next := GetFilterParams(lines, pos + 1, params);
    if ret != 0 {
      return End(NoParams), next;
    }
    InBuffer(params, ReadBlock(here[1..], PARAMS_LEN).text);
    match create(header.name, ParamText(params))
    case Refused => return End(NotCreated), next;
    case Made(f) => return More(f, lines[next..]), next;
  }

  // The C string in a buffer.
  function ParamText(buf: array<char>): string
    reads buf
  {
    buf[..Until((c: char) => c == NUL, buf[..])]
  }

  lemma InBuffer(buf: array<char>, text: string)
    requires |text| < buf.Length && buf[..|text|] == text && buf[|text|] == NUL && NUL !in text
    ensures ParamText(buf) == text
  {
    UntilIs((c: char) => c == NUL, buf[..], |text|);
  }

  // A block as written: a line naming the filter, parameter lines, and EndFilter.
  datatype Written = Written(header: HeaderLine, body: seq<string>, end: string)
  {
    predicate Valid() {
      && header.Valid() && BodyLines(body) && SameUpToCase(end, END_FILTER)
      && |Join(body)| + 2 <= PARAMS_LEN
    }

    function Lines(): seq<string> {
      [header.Text()] + (body + [end])
    }
  }

  function LinesOfAll(blocks: seq<Written>): seq<string> {
    if blocks == [] then [] else blocks[0].Lines() + LinesOfAll(blocks[1..])
  }

  // The filters the blocks stand for, one by one.
  function CreateAll<F>(blocks: seq<Written>, create: (string, string) -> Made<F>): Loaded<F> {
    if blocks == [] then Filters([])
    else
      match CreateOne(blocks[0], create)
      case Refused => NotCreated
      case Made(f) =>
        match CreateAll(blocks[1..], create)
        case Filters(fs) => Filters([f] + fs)
        case e => e
  }

  // The filter one block asks for.
  function CreateOne<F>(b: Written, create: (string, string) -> Made<F>): Made<F> {
    create(Clipped(b.header.name), Join(b.body))
  }

  // One filter for each block, in order, or a block that is refused.
  lemma {:induction false} CreatesInOrder<F>(blocks: seq<Written>, create: (string, string) -> Made<F>)
    ensures match CreateAll(blocks, create)
            case Filters(fs) =>
              |fs| == |blocks| && forall i :: 0 <= i < |blocks| ==> CreateOne(blocks[i], create) == Made(fs[i])
            case e =>
              e == NotCreated && exists i :: 0 <= i < |blocks| && CreateOne(blocks[i], create) == Refused
    decreases |blocks|
  {
    hide CreateOne;
    if blocks != [] {
      var rest := blocks[1..];
      CreatesInOrder(rest, create);
      if i :| 0 <= i < |rest| && CreateOne(rest[i], create) == Refused {
        assert blocks[i + 1] == rest[i];
      }
    }
  }

  // A file that starts with well-formed blocks loads as its blocks in order, each created
  // from its name and all of its lines, and then as what follows them; the first refusal
  // ends it.
  lemma {:induction false} LoadsInOrder<F>(blocks: seq<Written>, tail: seq<string>,
                                           create: (string, string) -> Made<F>)
    requires forall i :: 0 <= i < |blocks| ==> blocks[i].Valid()
    ensures Load(LinesOfAll(blocks) + tail, create)
         == match CreateAll(blocks, create)
            case Filters(fs) => After(fs, Load(tail, create))
            case e => e
    decreases |blocks|
  {
    hide ReadHeader, ReadBlock, HeaderLine.Valid, Written.Lines;
    if blocks == [] {
      assert LinesOfAll(blocks) + tail == tail;
      AfterNone(Load(tail, create));
    } else {
      var b, rest := blocks[0], LinesOfAll(blocks[1..]) + tail;
      var lines := LinesOfAll(blocks) + tail;
      FirstBlock(b, LinesOfAll(blocks[1..]), tail);
      assert b.Valid();
      HeaderReadBack(b.header);
      CollectedIffFits(b.body, b.end, rest, PARAMS_LEN);
      LoadsInOrder(blocks[1..], tail, create);
      var made := create(Clipped(b.header.name), Join(b.body));
      if made.Made? {
        AfterBoth(made.filter, CreateAll(blocks[1..], create), Load(tail, create));
      }
    }
  }

  lemma FirstBlock(b: Written, others: seq<string>, tail: seq<string>)
    ensures var lines := (b.Lines() + others) + tail;
            |lines| > 1 && lines[0] == b.header.Text() && lines[1..] == b.body + [b.end] + (others + tail)
  {
  }

  lemma AfterBoth<F>(f: F, more: Loaded<F>, last: Loaded<F>)
    ensures match more
            case Filters(fs) => After([f], After(fs, last)) == After([f] + fs, last)
            case _ => true
  {
    if more.Filters? { AfterTwice(f, more.fs, last); }
  }

  lemma AfterTwice<F>(f: F, fs: seq<F>, last: Loaded<F>)
    ensures After([f], After(fs, last)) == After([f] + fs, last)
  {
    if last.Filters? { assert [f] + (fs + last.fs) == ([f] + fs) + last.fs; }
  }

  // What follows the blocks: nothing, or one line the end of the file hides, is no error;
  // a line that is no header, or a header whose block does not end, is.
  lemma LoadsTail<F>(tail: seq<string>, create: (string, string) -> Made<F>)
    ensures |tail| <= 1 ==> Load(tail, create) == Filters([])
    ensures |tail| > 1 && !(|tail[0]| >= 10 && SameUpToCase(tail[0][..10], "FilterName"))
        ==> Load(tail, create) == NoName
    ensures |tail| > 1 && |tail[0]| >= 10 && SameUpToCase(tail[0][..10], "FilterName")
            && (forall i :: 0 < i < |tail| ==> !SameUpToCase(tail[i], END_FILTER))
        ==> Load(tail, create) == NoParams
  {
    hide ReadHeader, ReadBlock, SameUpToCase;
    if |tail| > 1 {
      HeaderIffKeyword(tail[0]);
      DoneIffEnds(tail[1..], PARAMS_LEN);
    }
  }
}

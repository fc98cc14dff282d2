// The parameter syntax of src/evf_param.c as functions on the text still to be read:
// what evf_load_params binds, and that it reads back what was written.
module Tokens {
  import opened Strings

  // Up to the first character satisfying p, or the end.
  function Until(p: char -> bool, s: string): (n: nat)
    ensures n <= |s|
    ensures forall i :: 0 <= i < n ==> !p(s[i])
    ensures n < |s| ==> p(s[n])
  {
    if s == [] || p(s[0]) then 0 else 1 + Until(p, s[1..])
  }

  function NotSpace(): char -> bool {
    (c: char) => !IsSpace(c)
  }

  function NameEnd(): char -> bool {
    (c: char) => IsSpace(c) || c == '='
  }

  function ValueEnd(quote: char): char -> bool {
    (c: char) => if quote == NUL then IsSpace(c) else c == quote
  }

  // evf_eat_spaces
  function SkipSpaces(s: string): (r: string)
    ensures |r| <= |s|
  {
    s[Until(NotSpace(), s)..]
  }

  // The text after position n, the character there being overwritten by a NUL.
  function Past(s: string, n: nat): (r: string)
    ensures |r| <= |s|
  {
    if n < |s| then s[n + 1..] else []
  }

  function DropSign(s: string): (r: string)
    ensures |r| <= |s|
  {
    if s != [] && s[0] == '=' then s[1..] else s
  }

  // evfilter_get_name: the name, and the text left.
  function ReadName(s: string): (r: (string, string))
    ensures s != [] ==> |r.1| < |s|
    ensures |r.1| <= |s|
  {
    var t := SkipSpaces(s);
    var n := Until(NameEnd(), t);
    (t[..n], DropSign(SkipSpaces(Past(t, n))))
  }

  // evfilter_get_value: the value, and the text left.
  function ReadValue(s: string): (r: (string, string))
    ensures |r.1| <= |s|
  {
    var t := SkipSpaces(s);
    if t != [] && (t[0] == '"' || t[0] == '\'') then UpTo(t[0], t[1..]) else UpTo(NUL, t)
  }

  // A value up to its closing quote, or up to a blank if it has none.
  function UpTo(quote: char, s: string): (r: (string, string))
    ensures |r.1| <= |s|
  {
    var n := Until(ValueEnd(quote), s);
    (s[..n], Past(s, n))
  }

  // evfilter_find_possition: the first parameter of that name, in any case.
  function Find(names: seq<string>, name: string): (r: Position)
    ensures r.Found? ==> r.at < |names| && SameUpToCase(names[r.at], name)
    ensures r.Found? ==> forall i :: 0 <= i < r.at ==> !SameUpToCase(names[i], name)
    ensures r.NotFound? ==> forall i :: 0 <= i < |names| ==> !SameUpToCase(names[i], name)
  {
    if names == [] then NotFound
    else
      CaseCmpZero(names[0], name);
      if CaseCmp(names[0], name) == 0 then Found(0)
      else
        match Find(names[1..], name)
        case NotFound => NotFound
        case Found(i) => Found(i + 1)
  }

  // What the parsing loop of evf_load_params comes to: the values bound, or the name
  // it stops at.
  datatype Parsed = Bound(values: map<nat, string>) | Unknown(name: string) | Redefined(name: string)

  function Parse(s: string, names: seq<string>, bound: map<nat, string>): Parsed
    decreases |s|
  {
    if s == [] then Bound(bound)
    else
      var (name, rest) := ReadName(s);
      match Find(names, name)
      case NotFound => Unknown(name)
      case Found(i) =>
        if i in bound then Redefined(name)
        else
          var (value, rest) := ReadValue(rest);
          Parse(rest, names, bound[i := value])
  }

  // ---- Writing parameters down ----

  datatype Quote = Double | Single | Bare

  // name, blanks, an equals sign or none, blanks, value; pad is what precedes it all.
  datatype Item = Item(pad: string, name: string, left: string, eq: bool, right: string,
                       value: string, quote: Quote)
  {
    function Body(): string {
      match quote
      case Double => ['"'] + value + ['"']
      case Single => ['\''] + value + ['\'']
      case Bare => value
    }

    function Sign(): string {
      if eq then "=" else ""
    }

    function Text(): string {
      pad + (name + (left + (Sign() + (right + Body()))))
    }

    predicate Valid() {
      && AllSpaces(pad) && AllSpaces(left) && AllSpaces(right)
      && (eq || left != []) && (!eq ==> right == [])
      && name != [] && (forall c :: c in name ==> !IsSpace(c) && c != '=')
      && match quote
         case Double => '"' !in value
         case Single => '\'' !in value
         case Bare => value != [] && value[0] !in {'"', '\'', '='} && forall c :: c in value ==> !IsSpace(c)
    }
  }

  // A list of items; an unquoted value needs a blank before the next item.
  function Write(items: seq<Item>): string {
    if items == [] then [] else items[0].Text() + Write(items[1..])
  }

  predicate Separated(items: seq<Item>) {
    && (forall i :: 0 <= i < |items| ==> items[i].Valid())
    && forall i :: 0 < i < |items| && items[i - 1].quote.Bare? ==> items[i].pad != []
  }

  // All names are known, no two mean the same parameter, and none is bound yet.
  predicate Bindable(items: seq<Item>, names: seq<string>, bound: map<nat, string>) {
    && (forall i :: 0 <= i < |items| ==>
          Find(names, items[i].name).Found? && Find(names, items[i].name).at !in bound)
    && forall i, j :: 0 <= i < j < |items| ==> Find(names, items[i].name) != Find(names, items[j].name)
  }

  // The bindings the items stand for.
  function Bindings(items: seq<Item>, names: seq<string>, bound: map<nat, string>): map<nat, string> {
    if items == [] then bound
    else
      match Find(names, items[0].name)
      case NotFound => bound
      case Found(i) => Bindings(items[1..], names, bound[i := items[0].value])
  }

  // ---- Reading them back ----

  lemma UntilIs(p: char -> bool, s: string, n: nat)
    requires n <= |s| && (forall i :: 0 <= i < n ==> !p(s[i])) && (n < |s| ==> p(s[n]))
    ensures Until(p, s) == n
  {
    assert !(Until(p, s) < n);
  }

  lemma SkipBlanks(blanks: string, s: string)
    requires AllSpaces(blanks) && (s != [] ==> !IsSpace(s[0]))
    ensures SkipSpaces(blanks + s) == s
  {
    UntilIs(NotSpace(), blanks + s, |blanks|);
  }

  // What follows the name, up to the value.
  lemma NameSplits(pad: string, name: string, tail: string)
    requires AllSpaces(pad) && name != [] && (forall c :: c in name ==> !IsSpace(c) && c != '=')
    requires tail != [] && (IsSpace(tail[0]) || tail[0] == '=')
    ensures ReadName(pad + (name + tail)) == (name, DropSign(SkipSpaces(tail[1..])))
  {
    var t := name + tail;
    SkipBlanks(pad, t);
    UntilIs(NameEnd(), t, |name|);
    assert t[..|name|] == name && Past(t, |name|) == tail[1..];
  }

  // Blanks and sign between a name and its value are skipped, whichever were written:
  // an equals sign right after the name ends the name, any other one is dropped later.
  lemma SignEndsName(right: string, body: string)
    requires AllSpaces(right) && body != [] && !IsSpace(body[0]) && body[0] != '='
    ensures SkipSpaces(DropSign(SkipSpaces(right + body))) == body
  {
    hide Until;
    SkipBlanks(right, body);
    SkipBlanks([], body);
    assert [] + body == body;
  }

  lemma SignDropped(left: string, right: string, body: string)
    requires AllSpaces(left) && AllSpaces(right) && body != [] && !IsSpace(body[0])
    ensures SkipSpaces(DropSign(SkipSpaces(left + ("=" + (right + body))))) == body
  {
    hide Until;
    SkipBlanks(left, "=" + (right + body));
    assert ("=" + (right + body))[1..] == right + body;
    SkipBlanks(right, body);
  }

  lemma SignSkipped(left: string, eq: bool, right: string, body: string)
    requires AllSpaces(left) && AllSpaces(right) && (eq || left != []) && (!eq ==> right == [])
    requires body != [] && !IsSpace(body[0]) && body[0] != '='
    ensures var tail := left + ((if eq then "=" else "") + (right + body));
            && (IsSpace(tail[0]) || tail[0] == '=')
            && SkipSpaces(DropSign(SkipSpaces(tail[1..]))) == body
  {
    hide SkipSpaces, DropSign;
    var rest := (if eq then "=" else "") + (right + body);
    if left == [] {
      assert (left + rest)[1..] == right + body;
      SignEndsName(right, body);
    } else {
      assert (left + rest)[1..] == left[1..] + rest;
      if eq {
        SignDropped(left[1..], right, body);
      } else {
        assert rest == body;
        SignEndsName(left[1..], body);
      }
    }
  }

  lemma NameReadBack(it: Item, more: string)
    requires it.Valid() && it.Body() != [] && !IsSpace(it.Body()[0]) && it.Body()[0] != '='
    ensures var (name, rest) := ReadName(it.Text() + more);
            name == it.name && SkipSpaces(rest) == it.Body() + more
  {
    hide ReadName, SkipSpaces, DropSign;
    var body := it.Body() + more;
    var tail := it.left + (it.Sign() + (it.right + body));
    SignSkipped(it.left, it.eq, it.right, body);
    NameSplits(it.pad, it.name, tail);
    TextSplits(it, more);
  }

  lemma TextSplits(it: Item, more: string)
    ensures it.Text() + more
         == it.pad + (it.name + (it.left + (it.Sign() + (it.right + (it.Body() + more)))))
  {
    var b := it.Body();
    assert (it.right + b) + more == it.right + (b + more);
    assert (it.Sign() + (it.right + b)) + more == it.Sign() + (it.right + (b + more));
    assert (it.left + (it.Sign() + (it.right + b))) + more == it.left + (it.Sign() + (it.right + (b + more)));
  }

  lemma UpToIs(quote: char, value: string, more: string)
    requires forall c :: c in value ==> !ValueEnd(quote)(c)
    requires more != [] ==> ValueEnd(quote)(more[0])
    ensures UpTo(quote, value + more) == (value, Past(more, 0))
  {
    UntilIs(ValueEnd(quote), value + more, |value|);
    assert Past(value + more, |value|) == Past(more, 0);
  }

  lemma QuotedReadBack(quote: char, value: string, more: string)
    requires quote in {'"', '\''} && quote !in value
    ensures UpTo(quote, (value + [quote]) + more) == (value, more)
  {
    hide UpTo;
    assert (value + [quote]) + more == value + ([quote] + more);
    UpToIs(quote, value, [quote] + more);
    assert ([quote] + more)[1..] == more;
  }

  // A value is read back, and the text that follows it is left: all of it after a
  // quote, and without the blank that ended it after a bare value.
  lemma ValueReadBack(it: Item, s: string, more: string)
    requires it.Valid() && SkipSpaces(s) == it.Body() + more
    requires it.quote.Bare? && more != [] ==> IsSpace(more[0])
    ensures ReadValue(s) == (it.value, if it.quote.Bare? then Past(more, 0) else more)
  {
    hide UpTo, SkipSpaces;
    var t := it.Body() + more;
    if it.quote.Bare? {
      UpToIs(NUL, it.value, more);
    } else {
      var q := if it.quote.Double? then '"' else '\'';
      assert it.Body() == [q] + it.value + [q];
      assert t[0] == q && t[1..] == (it.value + [q]) + more;
      QuotedReadBack(q, it.value, more);
    }
  }

  // Blanks that the loop is happy to find after the last item.
  predicate CleanEnd(items: seq<Item>, after: string) {
    after == [] || (|after| == 1 && items != [] && items[|items| - 1].quote.Bare?)
  }

  // Whatever way the items are written, and whatever blanks follow, the parser binds
  // exactly their values when the end is clean; otherwise it looks for one more name
  // in the blanks and rejects the empty one.
  lemma {:induction false} ReadsBack(items: seq<Item>, after: string, names: seq<string>, bound: map<nat, string>)
    requires Separated(items) && Bindable(items, names, bound) && AllSpaces(after) && Find(names, "").NotFound?
    ensures Parse(Write(items) + after, names, bound)
         == if CleanEnd(items, after) then Bound(Bindings(items, names, bound)) else Unknown("")
    decreases |items|
  {
    hide ReadName, ReadValue, Bindable, Find, Item.Text, Item.Valid, Write;
    if items == [] {
      WriteNothing(after);
      if after != [] { OnlyBlanks(after); }
    } else {
      var it, rest := items[0], items[1..];
      var more := Write(rest) + after;
      FirstReadBack(items, after);
      BindableRest(items, names, bound);
      var i := Find(names, it.name).at;
      if !it.quote.Bare? {
        ReadsBack(rest, after, names, bound[i := it.value]);
      } else if rest == [] {
        WriteNothing(after);
        WriteNothing(Past(after, 0));
        ReadsBack([], Past(after, 0), names, bound[i := it.value]);
        assert items[|items| - 1] == it;
        assert CleanEnd([], Past(after, 0)) == CleanEnd(items, after);
      } else {
        var shorter := [rest[0].(pad := rest[0].pad[1..])] + rest[1..];
        ShorterPad(rest, names, bound[i := it.value]);
        ShorterText(rest, after);
        ReadsBack(shorter, after, names, bound[i := it.value]);
      }
    }
  }

  lemma WriteNothing(after: string)
    ensures Write([]) + after == after
  {
  }

  lemma OnlyBlanks(after: string)
    requires AllSpaces(after)
    ensures ReadName(after).0 == ""
  {
    UntilIs(NotSpace(), after, |after|);
  }

  // One name and one value of a list of items are read.
  lemma FirstReadBack(items: seq<Item>, after: string)
    requires items != [] && Separated(items) && AllSpaces(after)
    ensures var it, more := items[0], Write(items[1..]) + after;
            var (name, rest) := ReadName(Write(items) + after);
            && Write(items) + after != []
            && name == it.name
            && ReadValue(rest) == (it.value, if it.quote.Bare? then Past(more, 0) else more)
  {
    hide ReadName, ReadValue, SkipSpaces;
    var it := items[0];
    var more := Write(items[1..]) + after;
    assert Write(items) + after == it.Text() + more;
    NameReadBack(it, more);
    if it.quote.Bare? && more != [] {
      MoreStartsBlank(items, after);
    }
    ValueReadBack(it, ReadName(it.Text() + more).1, more);
  }

  lemma ShorterText(items: seq<Item>, after: string)
    requires items != [] && items[0].pad != []
    ensures var shorter := [items[0].(pad := items[0].pad[1..])] + items[1..];
            Past(Write(items) + after, 0) == Write(shorter) + after
  {
    var it := items[0];
    var short := it.(pad := it.pad[1..]);
    var tail := it.name + (it.left + (it.Sign() + (it.right + it.Body())));
    assert short.Sign() == it.Sign() && short.Body() == it.Body();
    assert ([short] + items[1..])[1..] == items[1..];
    DropFirst(it.pad, tail, Write(items[1..]), after);
  }

  lemma DropFirst(pad: string, tail: string, w: string, after: string)
    requires pad != []
    ensures Past(((pad + tail) + w) + after, 0) == ((pad[1..] + tail) + w) + after
  {
    assert (((pad + tail) + w) + after)[1..] == ((pad[1..] + tail) + w) + after;
  }

  lemma BindableRest(items: seq<Item>, names: seq<string>, bound: map<nat, string>)
    requires items != [] && Bindable(items, names, bound)
    ensures var i := Find(names, items[0].name);
            && i.Found? && i.at !in bound
            && Bindable(items[1..], names, bound[i.at := items[0].value])
  {
    hide Find;
    var rest := items[1..];
    assert forall k :: 0 <= k < |rest| ==> rest[k] == items[k + 1];
  }

  lemma MoreStartsBlank(items: seq<Item>, after: string)
    requires items != [] && items[0].quote.Bare? && Separated(items) && AllSpaces(after)
    requires Write(items[1..]) + after != []
    ensures IsSpace((Write(items[1..]) + after)[0])
  {
    if |items| > 1 {
      var next := items[1];
      assert next.pad != [] && next.Valid();
      assert (Write(items[1..]) + after)[0] == next.pad[0];
    }
  }

  // A blank less before the first item changes nothing of what is bound.
  lemma ShorterPad(items: seq<Item>, names: seq<string>, bound: map<nat, string>)
    requires items != [] && items[0].pad != [] && Separated(items) && Bindable(items, names, bound)
    ensures var shorter := [items[0].(pad := items[0].pad[1..])] + items[1..];
            && Separated(shorter) && Bindable(shorter, names, bound)
            && Bindings(shorter, names, bound) == Bindings(items, names, bound)
            && forall after :: CleanEnd(shorter, after) == CleanEnd(items, after)
  {
    hide Find, Item.Valid;
    var short := items[0].(pad := items[0].pad[1..]);
    var shorter := [short] + items[1..];
    assert shorter[1..] == items[1..];
    ShorterValid(items[0]);
    assert forall i :: 0 < i < |items| ==> shorter[i] == items[i];
    assert forall i :: 0 <= i < |items| ==> shorter[i].name == items[i].name && shorter[i].quote == items[i].quote;
  }

  lemma ShorterValid(it: Item)
    requires it.Valid() && it.pad != []
    ensures it.(pad := it.pad[1..]).Valid()
  {
  }

  // ---- Lists that are rejected ----

  lemma ShorterSeparated(items: seq<Item>)
    requires items != [] && items[0].pad != [] && Separated(items)
    ensures var shorter := [items[0].(pad := items[0].pad[1..])] + items[1..];
            Separated(shorter) && SameNames(shorter, items)
  {
    hide Item.Valid;
    ShorterValid(items[0]);
    var shorter := [items[0].(pad := items[0].pad[1..])] + items[1..];
    assert forall i :: 0 < i < |items| ==> shorter[i] == items[i];
  }

  predicate SameNames(a: seq<Item>, b: seq<Item>) {
    |a| == |b| && forall i :: 0 <= i < |a| ==> a[i].name == b[i].name
  }

  lemma BindableByName(a: seq<Item>, b: seq<Item>, k: nat, names: seq<string>, bound: map<nat, string>)
    requires SameNames(a, b) && k <= |a| && Bindable(b[..k], names, bound)
    ensures Bindable(a[..k], names, bound)
  {
    hide Find;
    assert forall i :: 0 <= i < k ==> a[..k][i].name == b[..k][i].name;
  }

  // The parameter item k names is bound already, or by an item before it.
  predicate Taken(items: seq<Item>, k: nat, names: seq<string>, bound: map<nat, string>)
    requires k < |items|
  {
    var f := Find(names, items[k].name);
    f.Found? && (f.at in bound || exists j :: 0 <= j < k && Find(names, items[j].name) == f)
  }

  // Parsing stops at the first item that names no parameter, or one that is bound, and
  // says which.
  lemma {:induction false} StopsAt(items: seq<Item>, k: nat, after: string, names: seq<string>, bound: map<nat, string>)
    requires Separated(items) && AllSpaces(after) && k < |items| && Bindable(items[..k], names, bound)
    ensures Find(names, items[k].name).NotFound?
        ==> Parse(Write(items) + after, names, bound) == Unknown(items[k].name)
    ensures Taken(items, k, names, bound)
        ==> Parse(Write(items) + after, names, bound) == Redefined(items[k].name)
    decreases k
  {
    hide ReadName, ReadValue, Bindable, Find, Item.Text, Item.Valid, Write, Separated, Taken, SameNames, Past;
    FirstReadBack(items, after);
    if k == 0 {
      TakenFirst(items, names, bound);
    } else {
      var it, rest := items[0], items[1..];
      assert items[..k][0] == it && items[..k][1..] == rest[..k - 1];
      BindableRest(items[..k], names, bound);
      var now := bound[Find(names, it.name).at := it.value];
      assert Find(names, items[0].name).Found?;
      SeparatedRest(items);
      TakenLater(items, k, names, bound);
      if it.quote.Bare? {
        var shorter := [rest[0].(pad := rest[0].pad[1..])] + rest[1..];
        ShorterSeparated(rest);
        ShorterText(rest, after);
        BindableByName(shorter, rest, k - 1, names, now);
        TakenByName(shorter, rest, k - 1, names, now);
        StopsAt(shorter, k - 1, after, names, now);
      } else {
        StopsAt(rest, k - 1, after, names, now);
      }
    }
  }

  lemma SeparatedRest(items: seq<Item>)
    requires |items| > 1 && Separated(items)
    ensures Separated(items[1..]) && (items[0].quote.Bare? ==> items[1].pad != [])
  {
    hide Item.Valid;
  }

  lemma TakenFirst(items: seq<Item>, names: seq<string>, bound: map<nat, string>)
    requires items != []
    ensures Taken(items, 0, names, bound)
       <==> Find(names, items[0].name).Found? && Find(names, items[0].name).at in bound
  {
  }

  lemma TakenLater(items: seq<Item>, k: nat, names: seq<string>, bound: map<nat, string>)
    requires 0 < k < |items| && Find(names, items[0].name).Found?
    ensures Taken(items, k, names, bound)
        ==> Taken(items[1..], k - 1, names, bound[Find(names, items[0].name).at := items[0].value])
  {
    hide Find;
    var f, rest := Find(names, items[k].name), items[1..];
    if j :| 0 < j < k && Find(names, items[j].name) == f {
      assert Find(names, rest[j - 1].name) == f;
    }
  }

  lemma TakenByName(a: seq<Item>, b: seq<Item>, k: nat, names: seq<string>, bound: map<nat, string>)
    requires SameNames(a, b) && k < |a|
    ensures Taken(a, k, names, bound) == Taken(b, k, names, bound)
  {
    hide Find;
  }

  // Where a list is not bindable it stops.
  lemma {:induction false} FirstTrouble(items: seq<Item>, names: seq<string>, bound: map<nat, string>) returns (k: nat)
    requires !Bindable(items, names, bound)
    ensures k < |items| && Bindable(items[..k], names, bound)
    ensures Find(names, items[k].name).NotFound? || Taken(items, k, names, bound)
    decreases |items|
  {
    hide Find;
    var n := |items| - 1;
    var init := items[..n];
    if Bindable(init, names, bound) {
      k := n;
      assert forall i :: 0 <= i < n ==> init[i] == items[i];
    } else {
      k := FirstTrouble(init, names, bound);
      assert init[..k] == items[..k];
      TakenInPrefix(items, n, k, names, bound);
    }
  }

  lemma TakenInPrefix(items: seq<Item>, n: nat, k: nat, names: seq<string>, bound: map<nat, string>)
    requires k < n <= |items|
    ensures Taken(items[..n], k, names, bound) == Taken(items, k, names, bound)
  {
    hide Find;
  }

  // A well-formed list is accepted exactly when its names are known, no two of them mean
  // the same parameter, and it ends cleanly.
  lemma BoundIff(items: seq<Item>, after: string, names: seq<string>)
    requires Separated(items) && AllSpaces(after) && Find(names, "").NotFound?
    ensures Parse(Write(items) + after, names, map[]).Bound?
       <==> Bindable(items, names, map[]) && CleanEnd(items, after)
  {
    hide Parse, Bindable, Find, Write, Separated, CleanEnd, Taken;
    if Bindable(items, names, map[]) {
      ReadsBack(items, after, names, map[]);
    } else {
      var k := FirstTrouble(items, names, map[]);
      StopsAt(items, k, after, names, map[]);
    }
  }

  // ---- Any text ----

  // Where Until gets to in a text, from place i on.
  lemma UntilIn(p: char -> bool, s: string, i: nat) returns (j: nat)
    requires i <= |s|
    ensures i <= j <= |s| && (forall k :: i <= k < j ==> !p(s[k])) && (j < |s| ==> p(s[j]))
    ensures var t, n := s[i..], Until(p, s[i..]);
            t[..n] == s[i..j] && t[n..] == s[j..] && Past(t, n) == if j < |s| then s[j + 1..] else []
  {
    var t := s[i..];
    var n := Until(p, t);
    j := i + n;
    forall k | i <= k < j ensures !p(s[k]) {
      assert s[k] == t[k - i];
    }
  }

  lemma BlanksAt(s: string, i: nat) returns (j: nat)
    requires i <= |s|
    ensures i <= j <= |s| && AllSpaces(s[i..j]) && (j < |s| ==> !IsSpace(s[j])) && SkipSpaces(s[i..]) == s[j..]
  {
    j := UntilIn(NotSpace(), s, i);
  }

  // Whatever the text, a name is what stands after the blanks up to the next blank or
  // equals sign; that character is passed, then blanks, then one equals sign.
  lemma AnyName(s: string) returns (i: nat, j: nat, m: nat)
    ensures i <= j <= |s| && AllSpaces(s[..i]) && (i < |s| ==> !IsSpace(s[i]))
    ensures forall k :: i <= k < j ==> !IsSpace(s[k]) && s[k] != '='
    ensures j < |s| ==> IsSpace(s[j]) || s[j] == '='
    ensures ReadName(s).0 == s[i..j]
    ensures j == |s| ==> ReadName(s).1 == []
    ensures j < |s| ==> j < m <= |s| && AllSpaces(s[j + 1..m]) && (m < |s| ==> !IsSpace(s[m]))
                        && ReadName(s).1 == if m < |s| && s[m] == '=' then s[m + 1..] else s[m..]
  {
    hide Until, SkipSpaces, IsSpace, AllSpaces, Past, DropSign;
    i := BlanksAt(s, 0);
    assert s[0..] == s && s[0..i] == s[..i];
    j := UntilIn(NameEnd(), s, i);
    m := BlanksAt(s, if j < |s| then j + 1 else j);
    assert s[|s|..] == [] && DropSign([]) == [];
    SignAt(s, m);
  }

  lemma SignAt(s: string, m: nat)
    requires m <= |s|
    ensures DropSign(s[m..]) == if m < |s| && s[m] == '=' then s[m + 1..] else s[m..]
  {
  }

  lemma UpToAt(quote: char, s: string, i: nat) returns (j: nat)
    requires i <= |s|
    ensures i <= j <= |s| && UpTo(quote, s[i..]) == (s[i..j], if j < |s| then s[j + 1..] else [])
    ensures (forall k :: i <= k < j ==> !ValueEnd(quote)(s[k])) && (j < |s| ==> ValueEnd(quote)(s[j]))
  {
    hide Until, Past;
    j := UntilIn(ValueEnd(quote), s, i);
  }

  // And a value is what stands after the blanks: within quotes, up to the same quote, and
  // otherwise up to the next blank. The character that ends it is passed; the end of the
  // text ends it as well.
  lemma AnyValue(s: string) returns (i: nat, j: nat)
    ensures i <= j <= |s| && AllSpaces(s[..i]) && (i < |s| ==> !IsSpace(s[i]))
    ensures ReadValue(s).1 == if j < |s| then s[j + 1..] else []
    ensures i < |s| && s[i] in {'"', '\''} ==>
              i < j && (forall k :: i < k < j ==> s[k] != s[i]) && (j < |s| ==> s[j] == s[i])
              && ReadValue(s).0 == s[i + 1..j]
    ensures i == |s| || s[i] !in {'"', '\''} ==>
              (forall k :: i <= k < j ==> !IsSpace(s[k])) && (j < |s| ==> IsSpace(s[j])) && ReadValue(s).0 == s[i..j]
  {
    hide UpTo, SkipSpaces, IsSpace, AllSpaces, ReadValue;
    i := BlanksAt(s, 0);
    assert s[0..] == s && s[0..i] == s[..i];
    ValueFrom(s, i);
    if i < |s| && s[i] in {'"', '\''} {
      j := UpToAt(s[i], s, i + 1);
      QuoteEnds(s[i]);
    } else {
      j := UpToAt(NUL, s, i);
      BareEnds();
    }
  }

  lemma ValueFrom(s: string, i: nat)
    requires i <= |s| && SkipSpaces(s) == s[i..]
    ensures ReadValue(s) == if i < |s| && s[i] in {'"', '\''} then UpTo(s[i], s[i + 1..]) else UpTo(NUL, s[i..])
  {
    hide UpTo, SkipSpaces;
    if i < |s| { assert s[i..][1..] == s[i + 1..]; }
  }

  lemma QuoteEnds(quote: char)
    requires quote in {'"', '\''}
    ensures forall c :: ValueEnd(quote)(c) <==> c == quote
  {
  }

  lemma BareEnds()
    ensures forall c :: ValueEnd(NUL)(c) <==> IsSpace(c)
  {
  }

  // ---- What is bound ----

  predicate Binds(m: map<nat, string>, items: seq<Item>, names: seq<string>) {
    forall i :: 0 <= i < |items| ==>
      var p := Find(names, items[i].name);
      p.Found? && p.at in m && m[p.at] == items[i].value
  }

  // Exactly the items' values, beside what was bound before.
  lemma {:induction false} BindingsExact(items: seq<Item>, names: seq<string>, bound: map<nat, string>)
    requires Bindable(items, names, bound)
    ensures var m := Bindings(items, names, bound);
            && Binds(m, items, names)
            && (forall k :: k in bound ==> k in m && m[k] == bound[k])
            && (forall k :: k in m && k !in bound ==>
                  exists i :: 0 <= i < |items| && Find(names, items[i].name) == Found(k))
    decreases |items|
  {
    hide Find, Bindable;
    if items != [] {
      var rest := items[1..];
      BindableRest(items, names, bound);
      var at := Find(names, items[0].name).at;
      BindingsExact(rest, names, bound[at := items[0].value]);
      var m := Bindings(items, names, bound);
      forall i | 0 <= i < |items|
        ensures var p := Find(names, items[i].name); p.Found? && p.at in m && m[p.at] == items[i].value
      {
        if i > 0 { assert items[i] == rest[i - 1]; }
      }
      forall k | k in m && k !in bound
        ensures exists i :: 0 <= i < |items| && Find(names, items[i].name) == Found(k)
      {
        if k == at {
          assert Find(names, items[0].name) == Found(k);
        } else {
          var i :| 0 <= i < |rest| && Find(names, rest[i].name) == Found(k);
          assert rest[i] == items[i + 1];
        }
      }
    }
  }

  // Every item has its equal, up to layout, among the others.
  predicate Among(items: seq<Item>, others: seq<Item>, names: seq<string>) {
    forall i :: 0 <= i < |items| ==> exists j :: 0 <= j < |others| && Alike(items[i], others[j], names)
  }

  predicate Alike(it: Item, other: Item, names: seq<string>) {
    Find(names, it.name) == Find(names, other.name) && it.value == other.value
  }

  lemma BoundAmong(items: seq<Item>, others: seq<Item>, names: seq<string>, k: nat)
    requires Bindable(items, names, map[]) && Bindable(others, names, map[])
    requires Among(items, others, names) && k in Bindings(items, names, map[])
    ensures var m, n := Bindings(items, names, map[]), Bindings(others, names, map[]);
            k in n && n[k] == m[k]
  {
    hide Find, Bindings;
    BindingsExact(items, names, map[]);
    BindingsExact(others, names, map[]);
    var i :| 0 <= i < |items| && Find(names, items[i].name) == Found(k);
    var j :| 0 <= j < |others| && Alike(items[i], others[j], names);
    assert Find(names, others[j].name) == Found(k);
  }

  // Order, blanks, quotes and the case of names do not matter to what is bound.
  lemma LayoutIrrelevant(items: seq<Item>, others: seq<Item>, names: seq<string>)
    requires Separated(items) && Bindable(items, names, map[])
    requires Separated(others) && Bindable(others, names, map[])
    requires Find(names, "").NotFound? && Among(items, others, names) && Among(others, items, names)
    ensures Parse(Write(items), names, map[]) == Parse(Write(others), names, map[])
    ensures Parse(Write(items), names, map[]).Bound?
  {
    hide Find, Parse, Write, Bindings, Bindable, Separated, Among;
    ReadsBack(items, [], names, map[]);
    ReadsBack(others, [], names, map[]);
    assert Write(items) + [] == Write(items) && Write(others) + [] == Write(others);
    var m, n := Bindings(items, names, map[]), Bindings(others, names, map[]);
    forall k | k in m ensures k in n && n[k] == m[k] {
      BoundAmong(items, others, names, k);
    }
    forall k | k in n ensures k in m && m[k] == n[k] {
      BoundAmong(others, items, names, k);
    }
    assert m == n;
  }
}

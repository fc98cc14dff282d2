// src/evf_param.c and src/evf_func.c in memory: the text is cut into tokens in place,
// by writing NULs into it, and values are kept as pointers into it.
module ParamBuffer {
  import opened Strings
  import opened Tokens

  // The text from p on is NUL-terminated at end.
  predicate Terminated(s: seq<char>, p: nat, end: nat) {
    p <= end < |s| && s[end] == NUL && NUL !in s[p..end]
  }

  // The C string at off reads tok.
  predicate Reads(s: seq<char>, off: nat, tok: string) {
    off + |tok| < |s| && s[off..off + |tok|] == tok && s[off + |tok|] == NUL && NUL !in tok
  }

  // The token at off is cut off before the cursor p, so no later write can reach it; or
  // it ends with the whole text, and there will be none.
  predicate Closed(s: seq<char>, off: nat, tok: string, p: nat, end: nat) {
    Reads(s, off, tok) && (off + |tok| < p || off + |tok| == p == end)
  }

  // The C string at off.
  function StringAt(s: seq<char>, off: nat): string
    requires off <= |s|
  {
    s[off..off + Until((c: char) => c == NUL, s[off..])]
  }

  lemma ReadsIsString(s: seq<char>, off: nat, tok: string)
    requires Reads(s, off, tok)
    ensures StringAt(s, off) == tok
  {
    assert forall i :: 0 <= i < |tok| ==> s[off..][i] == tok[i];
    UntilIs((c: char) => c == NUL, s[off..], |tok|);
  }

  lemma ClosedReads(s: seq<char>, off: nat, tok: string, p: nat, end: nat)
    requires Closed(s, off, tok, p, end)
    ensures Reads(s, off, tok) && StringAt(s, off) == tok
  {
    ReadsIsString(s, off, tok);
  }

  // Writes between the cursor's old and new place leave closed tokens as they are.
  lemma StaysClosed(s: seq<char>, t: seq<char>, off: nat, tok: string, p: nat, q: nat, end: nat)
    requires Closed(s, off, tok, p, end)
    requires p <= q <= end < |s| == |t| && t[..p] == s[..p] && t[end] == NUL
    ensures Closed(t, off, tok, q, end)
  {
    assert s[off..off + |tok|] == s[..p][off..off + |tok|];
    assert t[off..off + |tok|] == t[..p][off..off + |tok|];
    if off + |tok| < p {
      assert s[off + |tok|] == s[..p][off + |tok|] && t[off + |tok|] == t[..p][off + |tok|];
    }
  }

  // evf_eat_spaces
  method EatSpaces(buf: array<char>, p: nat, ghost end: nat) returns (q: nat)
    requires Terminated(buf[..], p, end)
    ensures p <= q <= end && buf[q..end] == SkipSpaces(buf[p..end])
  {
    q := p;
    while IsSpace(buf[q])
      invariant p <= q <= end && forall i :: p <= i < q ==> IsSpace(buf[i])
      decreases end - q
    {
      q := q + 1;
    }
    UntilIs(NotSpace(), buf[p..end], q - p);
  }

  // The loop of evfilter_get_name up to the character that ends the name.
  method ScanName(buf: array<char>, start: nat, ghost end: nat) returns (q: nat)
    requires Terminated(buf[..], start, end)
    ensures start <= q <= end && q - start == Until(NameEnd(), buf[start..end])
  {
    q := start;
    while buf[q] != NUL
      invariant start <= q <= end
      invariant forall i :: start <= i < q ==> !NameEnd()(buf[i])
      decreases end - q
    {
      if IsSpace(buf[q]) || buf[q] == '=' {
        break;
      }
      q := q + 1;
    }
    UntilIs(NameEnd(), buf[start..end], q - start);
  }

  // evfilter_get_name: where the name starts, and the cursor after it.
  method GetName(buf: array<char>, p: nat, ghost end: nat) returns (name: nat, q: nat)
    requires Terminated(buf[..], p, end)
    modifies buf
    ensures p <= q <= end < buf.Length && (p < end ==> p < q)
    ensures buf[..p] == old(buf[..p])
    ensures buf[q..end] == old(ReadName(buf[p..end]).1)
    ensures Terminated(buf[..], q, end)
    ensures Closed(buf[..], name, old(ReadName(buf[p..end]).0), q, end)
  {
    hide Until, SkipSpaces, Past, Closed;
    name := EatSpaces(buf, p, end);
    ghost var t := buf[name..end];
    q := ScanName(buf, name, end);
    ghost var tok := buf[name..q];
    assert tok == t[..q - name];
    q := Cut(buf, name, q, end);
    ghost var cut := q;
    q := EatSpaces(buf, q, end);
    ghost var rest := buf[q..end];
    if buf[q] == '=' {
      q := q + 1;
    }
    assert buf[q..end] == DropSign(rest);
    StaysClosed(buf[..], buf[..], name, tok, cut, q, end);
  }

  // The end of a token's loop: its last character becomes a NUL and is stepped over,
  // unless the text ends here.
  method Cut(buf: array<char>, start: nat, k: nat, ghost end: nat) returns (q: nat)
    requires start <= k && Terminated(buf[..], start, end) && k <= end
    modifies buf
    ensures q == if k < end then k + 1 else k
    ensures buf[..k] == old(buf[..k]) && buf[q..] == old(buf[q..]) && Terminated(buf[..], q, end)
    ensures Closed(buf[..], start, old(buf[start..k]), q, end)
    ensures buf[q..end] == Past(old(buf[start..end]), k - start)
  {
    q := k;
    if buf[k] != NUL {
      buf[k] := NUL;
      q := k + 1;
    }
  }

  // The loop of evfilter_get_value up to the character that ends the value.
  method ScanValue(buf: array<char>, enc: char, start: nat, ghost end: nat) returns (q: nat)
    requires Terminated(buf[..], start, end)
    ensures start <= q <= end && q - start == Until(ValueEnd(enc), buf[start..end])
  {
    q := start;
    while buf[q] != NUL
      invariant start <= q <= end
      invariant forall i :: start <= i < q ==> !ValueEnd(enc)(buf[i])
      decreases end - q
    {
      if enc != NUL {
        if buf[q] == enc {
          break;
        }
      } else {
        if IsSpace(buf[q]) {
          break;
        }
      }
      q := q + 1;
    }
    UntilIs(ValueEnd(enc), buf[start..end], q - start);
  }

  // A quote that opens a value is noted and stepped over.
  method OpenQuote(buf: array<char>, start: nat, ghost end: nat) returns (enc: char, value: nat)
    requires Terminated(buf[..], start, end)
    ensures start <= value <= end
    ensures var t := buf[start..end];
            UpTo(enc, buf[value..end])
            == if t != [] && (t[0] == '"' || t[0] == '\'') then UpTo(t[0], t[1..]) else UpTo(NUL, t)
  {
    hide UpTo;
    enc, value := NUL, start;
    if buf[start] == '"' || buf[start] == '\'' {
      enc := buf[start];
      value := start + 1;
      assert buf[start..end][1..] == buf[value..end];
    }
  }

  // evfilter_get_value
  method GetValue(buf: array<char>, p: nat, ghost end: nat) returns (value: nat, q: nat)
    requires Terminated(buf[..], p, end)
    modifies buf
    ensures p <= q <= end && Terminated(buf[..], q, end)
    ensures buf[..p] == old(buf[..p])
    ensures Closed(buf[..], value, old(ReadValue(buf[p..end]).0), q, end)
    ensures buf[q..end] == old(ReadValue(buf[p..end]).1)
  {
    hide Until, SkipSpaces, Past, Closed;
    var start := EatSpaces(buf, p, end);
    var enc;
    enc, value := OpenQuote(buf, start, end);
    ghost var u := buf[value..end];
    assert ReadValue(buf[p..end]) == UpTo(enc, u);
    q := ScanValue(buf, enc, value, end);
    assert buf[value..q] == u[..q - value];
    q := Cut(buf, value, q, end);
  }

  // evfilter_find_possition, or -1.
  method FindPosition(name: string, names: seq<string>) returns (i: int)
    ensures i == match Find(names, name) case NotFound => -1 case Found(at) => at
  {
    i := 0;
    while i < |names|
      invariant 0 <= i <= |names|
      invariant forall k :: 0 <= k < i ==> !SameUpToCase(names[k], name)
    {
      CaseCmpZero(names[i], name);
      if CaseCmp(names[i], name) == 0 {
        return;
      }
      i := i + 1;
    }
    return -1;
  }

  datatype Outcome = AllBound | UnknownAt(name: nat) | RedefinedAt(name: nat)

  // The pointers in `values` read what is bound, or are null (-1).
  ghost predicate Holds(s: seq<char>, values: seq<int>, bound: map<nat, string>, p: nat, end: nat) {
    && (forall k :: k in bound ==> k < |values|)
    && forall i :: 0 <= i < |values| ==>
         if i in bound then values[i] >= 0 && Closed(s, values[i], bound[i], p, end) else values[i] == -1
  }

  // The parsing loop of evf_load_params. Every pass moves the cursor on and it never
  // passes the terminator; in the end every recorded pointer still reads the value it
  // was recorded for, in spite of all NULs written after it.
  method LoadParams(buf: array<char>, names: seq<string>, ghost end: nat)
    returns (outcome: Outcome, values: array<int>)
    requires Terminated(buf[..], 0, end)
    modifies buf
    ensures values.Length == |names|
    ensures match Parse(old(buf[..end]), names, map[])
            case Bound(m) => outcome == AllBound && Holds(buf[..], values[..], m, end, end)
            case Unknown(name) => outcome.UnknownAt? && Reads(buf[..], outcome.name, name)
            case Redefined(name) => outcome.RedefinedAt? && Reads(buf[..], outcome.name, name)
  {
    hide Until, ReadName, ReadValue, StringAt, Find, Closed;
    values := new int[|names|](_ => -1);
    assert buf[0..end] == buf[..end];
    var p := 0;
    ghost var bound: map<nat, string> := map[];
    while buf[p] != NUL
      invariant 0 <= p <= end && Terminated(buf[..], p, end)
      invariant Holds(buf[..], values[..], bound, p, end)
      invariant Parse(buf[p..end], names, bound) == Parse(old(buf[..end]), names, map[])
      decreases end - p
    {
      ghost var text, was := buf[p..end], buf[..];
      var name, q := GetName(buf, p, end);
      ghost var tok := ReadName(text).0;
      ClosedReads(buf[..], name, tok, q, end);
      var i := FindPosition(StringAt(buf[..], name), names);
      if i < 0 {
        return UnknownAt(name), values;
      }
      if values[i] != -1 {
        return RedefinedAt(name), values;
      }
      MovesOn(was, buf[..], values[..], bound, p, q, end);
      ghost var value := ReadValue(buf[q..end]).0;
      p := BindNext(buf, values, i, q, bound, end);
      bound := bound[i := value];
    }
    assert buf[p..end] == [];
    return AllBound, values;
  }

  // values[i] = evfilter_get_value(&cfg)
  method BindNext(buf: array<char>, values: array<int>, i: nat, p: nat, ghost bound: map<nat, string>, ghost end: nat)
    returns (q: nat)
    requires Terminated(buf[..], p, end) && i < values.Length && i !in bound
    requires Holds(buf[..], values[..], bound, p, end)
    modifies buf, values
    ensures p <= q <= end && Terminated(buf[..], q, end)
    ensures buf[q..end] == old(ReadValue(buf[p..end]).1)
    ensures Holds(buf[..], values[..], bound[i := old(ReadValue(buf[p..end]).0)], q, end)
  {
    ghost var was := buf[..];
    var v: nat;
    v, q := GetValue(buf, p, end);
    MovesOn(was, buf[..], values[..], bound, p, q, end);
    values[i] := v;
  }

  lemma MovesOn(s: seq<char>, t: seq<char>, values: seq<int>, bound: map<nat, string>, p: nat, q: nat, end: nat)
    requires Holds(s, values, bound, p, end)
    requires p <= q <= end < |s| == |t| && t[..p] == s[..p] && t[end] == NUL
    ensures Holds(t, values, bound, q, end)
  {
    forall i | 0 <= i < |values| && i in bound ensures Closed(t, values[i], bound[i], q, end) {
      StaysClosed(s, t, values[i], bound[i], p, q, end);
    }
  }
}

/**
 The client address behind trusted proxies: the walk over X-Forwarded-For from the right.
 A char is one character of the header.
 */
module ClientAddr {
  import opened Base
  import opened RateLimit

  // Text

  /** Go's unicode.IsSpace. */
  predicate IsSpace(c: char) {
    || '\t' <= c <= '\r' || c == ' ' || c == '\U{0085}' || c == '\U{00A0}' || c == '\U{1680}'
    || '\U{2000}' <= c <= '\U{200A}' || c == '\U{2028}' || c == '\U{2029}' || c == '\U{202F}' || c == '\U{205F}'
    || c == '\U{3000}'
  }

  /** The code points with the White_Space property. */
  lemma SpacesAre(c: char)
    ensures IsSpace(c) <==>
            var p := c as int;
            9 <= p <= 13 || 8192 <= p <= 8202 || p in {32, 133, 160, 5760, 8232, 8233, 8239, 8287, 12288}
  {
  }

  function TrimLeft(s: string): string {
    if s != [] && IsSpace(s[0]) then TrimLeft(s[1..]) else s
  }

  function TrimRight(s: string): string {
    if s != [] && IsSpace(s[|s| - 1]) then TrimRight(s[..|s| - 1]) else s
  }

  function TrimSpace(s: string): string {
    TrimRight(TrimLeft(s))
  }

  ghost predicate Blank(s: string) {
    forall k :: 0 <= k < |s| ==> IsSpace(s[k])
  }

  /** Text with no space at either end. */
  ghost predicate Tight(t: string) {
    t == "" || (!IsSpace(t[0]) && !IsSpace(t[|t| - 1]))
  }

  lemma {:induction false} TrimLeftAt(s: string) returns (k: nat)
    ensures k <= |s| && TrimLeft(s) == s[k..] && (forall i :: 0 <= i < k ==> IsSpace(s[i]))
    ensures k < |s| ==> !IsSpace(s[k])
  {
    if s != [] && IsSpace(s[0]) {
      hide IsSpace;
      k := TrimLeftAt(s[1..]);
      k := k + 1;
    } else {
      k := 0;
    }
  }

  lemma {:induction false} TrimRightAt(s: string) returns (n: nat)
    ensures n <= |s| && TrimRight(s) == s[..n] && (forall i :: n <= i < |s| ==> IsSpace(s[i]))
    ensures n > 0 ==> !IsSpace(s[n - 1])
  {
    if s != [] && IsSpace(s[|s| - 1]) {
      hide IsSpace;
      n := TrimRightAt(s[..|s| - 1]);
      assert s[..|s| - 1][..n] == s[..n];
    } else {
      n := |s|;
      assert s[..n] == s;
    }
  }

  /** What is left of trimming, and what it takes off. */
  lemma TrimParts(s: string) returns (a: string, b: string)
    ensures Blank(a) && Blank(b) && s == a + TrimSpace(s) + b && Tight(TrimSpace(s))
  {
    var k := TrimLeftAt(s);
    var n := TrimRightAt(s[k..]);
    hide IsSpace, TrimLeft, TrimRight;
    a, b := s[..k], s[k..][n..];
    assert TrimSpace(s) == s[k..][..n];
    assert forall i :: 0 <= i < |b| ==> b[i] == s[k..][n + i];
    Reassembled(s, k, n);
  }

  lemma Reassembled(s: string, k: nat, n: nat)
    requires k <= |s| && n <= |s[k..]|
    ensures s == s[..k] + s[k..][..n] + s[k..][n..]
  {
    assert s == s[..k] + s[k..] && s[k..] == s[k..][..n] + s[k..][n..];
  }

  /** There is only one way to take spaces off both ends until none is left there. */
  lemma OneTrim(a: string, t: string, b: string, a': string, t': string, b': string)
    requires Blank(a) && Blank(b) && Tight(t) && Blank(a') && Blank(b') && Tight(t')
    requires a + t + b == a' + t' + b'
    ensures t == t'
  {
    var s, n := a + t + b, |a + t + b|;
    if t != "" {
      assert s[|a|] == t[0] && s[|a + t| - 1] == t[|t| - 1];
      assert forall k :: 0 <= k < |a| ==> s[k] == a[k];
      assert forall k :: |a + t| <= k < n ==> s[k] == b[k - |a + t|];
    }
    if t' != "" {
      assert s[|a'|] == t'[0] && s[|a' + t'| - 1] == t'[|t'| - 1];
      assert forall k :: 0 <= k < |a'| ==> s[k] == a'[k];
      assert forall k :: |a' + t'| <= k < n ==> s[k] == b'[k - |a' + t'|];
    }
    if t == "" || t' == "" {
      assert forall k :: 0 <= k < |a + b| ==> IsSpace((a + b)[k]);
      assert forall k :: 0 <= k < |a' + b'| ==> IsSpace((a' + b')[k]);
    } else {
      assert |a| == |a'| && |a + t| == |a' + t'|;
      assert t == s[|a|..|a + t|] && t' == s[|a'|..|a' + t'|];
    }
  }

  /** Trimming takes the spaces off both ends, all of them and nothing else. */
  lemma TrimsExactly(s: string, t: string)
    ensures TrimSpace(s) == t <==> Tight(t) && exists a, b :: Blank(a) && Blank(b) && s == a + t + b
  {
    var a, b := TrimParts(s);
    forall x, y | Blank(x) && Blank(y) && Tight(t) && s == x + t + y ensures t == TrimSpace(s) {
      OneTrim(x, t, y, a, TrimSpace(s), b);
    }
  }

  lemma TrimSpaced(a: string, e: string, b: string)
    requires Blank(a) && Blank(b)
    ensures TrimSpace(a + e + b) == TrimSpace(e)
  {
    var g, t := a + e + b, TrimSpace(e);
    var x, y := TrimParts(e);
    var u, v := TrimParts(g);
    BlankJoin(a, x);
    BlankJoin(y, b);
    hide Blank, Tight, TrimSpace;
    assert g == (a + x) + t + (y + b) by {
      assert a + (x + t + y) + b == (a + x) + t + (y + b);
    }
    OneTrim(a + x, t, y + b, u, TrimSpace(g), v);
  }

  lemma BlankJoin(a: string, b: string)
    requires Blank(a) && Blank(b)
    ensures Blank(a + b)
  {
  }

  /** The index of the last comma, or -1. */
  function LastComma(s: string): (i: int)
    ensures -1 <= i < |s| && (i >= 0 ==> s[i] == ',') && forall k :: i < k < |s| ==> s[k] != ','
  {
    if s == [] then -1 else if s[|s| - 1] == ',' then |s| - 1 else LastComma(s[..|s| - 1])
  }

  lemma {:induction false} TrimLeftBlank(s: string)
    ensures TrimLeft(s) == [] ==> forall k :: 0 <= k < |s| ==> IsSpace(s[k])
    ensures TrimLeft(s) != [] ==> !IsSpace(TrimLeft(s)[0])
  {
    if s != [] && IsSpace(s[0]) { TrimLeftBlank(s[1..]); }
  }

  lemma {:induction false} TrimRightKeeps(s: string)
    requires s != [] && !IsSpace(s[0])
    ensures TrimRight(s) != []
  {
    if |s| > 1 && IsSpace(s[|s| - 1]) { TrimRightKeeps(s[..|s| - 1]); }
  }

  /** Blank text holds no comma: the walk that runs out of text has run out of entries. */
  lemma BlankHasNoComma(s: string)
    requires TrimSpace(s) == ""
    ensures LastComma(s) == -1
  {
    TrimLeftBlank(s);
    if TrimLeft(s) != [] { TrimRightKeeps(TrimLeft(s)); }
  }

  lemma NothingTrims()
    ensures TrimSpace("") == ""
  {
  }

  // Entries

  /** What the standard library gives: address parsing, with and without a port, and prefix containment. */
  datatype Library = Library(
    parseAddr: string -> Option<Addr>,
    parseAddrPort: string -> Option<Addr>,
    contains: (Prefix, Addr) -> bool)

  datatype Prefix = Prefix(addr: Addr, bits: nat)

  function Understood(a: Addr): Option<Addr> {
    if Unmap(a) != NoAddr then Some(Unmap(a)) else None
  }

  function ParseEntry(lib: Library, entry: string): Option<Addr> {
    if entry == "" then None
    else if lib.parseAddr(entry).Some? then Understood(lib.parseAddr(entry).value)
    else if |entry| > 2 && entry[0] == '[' && entry[|entry| - 1] == ']' then
      var inner := lib.parseAddr(entry[1..|entry| - 1]);
      if inner.Some? then Understood(inner.value) else None
    else if lib.parseAddrPort(entry).Some? then Understood(lib.parseAddrPort(entry).value)
    else None
  }

  /** What an address is used as: a mapped one as the IPv4 address it maps, any other as it is. */
  lemma UnderstoodIs(x: Octets4, b: Octets16)
    ensures Understood(NoAddr) == None && Understood(V4(x)) == Some(V4(x))
    ensures Understood(V6([0, 0, 0, 0, 0, 0, 0, 0, 0, 0, 255, 255] + x)) == Some(V4(x))
    ensures Proper(b) ==> Understood(V6(b)) == Some(V6(b))
  {
    UnmapExactly(b, x);
  }

  /**
   The three forms of an entry, none read two ways: a bare address; brackets, which hold an address and
   nothing else; and otherwise an address with a port.
   */
  lemma EntryForms(lib: Library, e: string)
    ensures ParseEntry(lib, "") == None
    ensures e != "" && lib.parseAddr(e).Some? ==> ParseEntry(lib, e) == Understood(lib.parseAddr(e).value)
    ensures e != "" && lib.parseAddr("[" + e + "]").None? ==>
              ParseEntry(lib, "[" + e + "]")
              == if lib.parseAddr(e).Some? then Understood(lib.parseAddr(e).value) else None
    ensures e != "" && lib.parseAddr(e).None? && !(|e| > 2 && e[0] == '[' && e[|e| - 1] == ']') ==>
              ParseEntry(lib, e)
              == if lib.parseAddrPort(e).Some? then Understood(lib.parseAddrPort(e).value) else None
  {
    var bracketed := "[" + e + "]";
    assert bracketed[1..|bracketed| - 1] == e;
  }

  /** The comma-separated entries of a header value, left to right, untrimmed. */
  function Entries(s: string): (es: seq<string>)
    ensures |es| >= 1
  {
    var i := LastComma(s);
    if i < 0 then [s] else Entries(s[..i]) + [s[i + 1..]]
  }

  function LastEntry(s: string): (string, string, bool) {
    if TrimSpace(s) == "" then ("", "", false)
    else
      var i := LastComma(s);
      if i >= 0 then (TrimSpace(s[i + 1..]), s[..i], true) else (TrimSpace(s), "", true)
  }

  // The walk

  datatype Extractor = Extractor(lib: Library, trusted: seq<Prefix>) {

    ghost predicate Trusts(a: Addr) {
      exists p :: p in trusted && lib.contains(p, a)
    }

    method CheckTrusts(a: Addr) returns (ok: bool)
      ensures ok == Trusts(a)
    {
      for i := 0 to |trusted|
        invariant forall k :: 0 <= k < i ==> !lib.contains(trusted[k], a)
      {
        if lib.contains(trusted[i], a) { return true; }
      }
      ok := false;
    }

    /** The address an entry names. */
    function Named(entry: string): Option<Addr> {
      ParseEntry(lib, TrimSpace(entry))
    }

    /** An entry the walk steps over. */
    ghost predicate Hop(entry: string) {
      Named(entry).Some? && Trusts(Named(entry).value)
    }

    /** The walk as a list function: the last entry decides, unless it is a trusted hop. */
    ghost function Walked(es: seq<string>, peer: Addr): Addr {
      if es == [] then peer
      else
        var last := es[|es| - 1];
        if Named(last).None? then peer
        else if !Trusts(Named(last).value) then Named(last).value
        else Walked(es[..|es| - 1], peer)
    }

    /** Where the walk stands: the entries still to its left, none once it has passed the first. */
    ghost predicate AtEntries(rest: string, left: seq<string>) {
      left == Entries(rest) || (left == [] && rest == "")
    }

    /** One round: nothing left, or the last entry, and what then remains. */
    lemma RoundIs(rest: string, left: seq<string>, peer: Addr)
      requires AtEntries(rest, left)
      ensures var (entry, remainder, found) := LastEntry(rest);
        if !found then entry == "" && Walked(left, peer) == peer
        else
          && left != [] && ParseEntry(lib, entry) == Named(left[|left| - 1])
          && AtEntries(remainder, left[..|left| - 1]) && |remainder| < |rest|
    {
      hide ParseEntry, TrimSpace, Trusts;
      EmptyIsNotUnderstood();
      if TrimSpace(rest) == "" {
        if left != [] {
          BlankHasNoComma(rest);
          assert left == [rest];
        }
      } else {
        NothingTrims();
        assert rest != "" && left == Entries(rest);
        hide Walked;
      }
    }

    lemma EmptyIsNotUnderstood()
      ensures ParseEntry(lib, "").None?
    {
    }

    method Walk(xff: string, peer: Addr) returns (r: Addr)
      ensures r == Walked(Entries(xff), peer)
    {
      var rest := xff;
      ghost var left := Entries(xff);
      hide TrimSpace, ParseEntry, Trusts, AtEntries, LastEntry, Entries;
      assert AtEntries(rest, left) by { AtStart(xff); }
      while true
        invariant Walked(left, peer) == Walked(Entries(xff), peer)
        invariant AtEntries(rest, left)
        decreases |rest|
      {
        RoundIs(rest, left, peer);
        var (entry, remainder, found) := LastEntry(rest);
        if entry == "" && !found { return peer; }
        var addr := ParseEntry(lib, entry);
        if addr.None? { return peer; }
        var trusted := CheckTrusts(addr.value);
        if !trusted { return addr.value; }
        left := left[..|left| - 1];
        rest := remainder;
      }
    }

    lemma AtStart(xff: string)
      ensures AtEntries(xff, Entries(xff))
    {
    }

    method ClientAddr(peer: Addr, xff: string) returns (r: Addr)
      ensures var p := Unmap(peer);
        r == if p == NoAddr || !Trusts(p) then p else Walked(Entries(xff), p)
      ensures r.V6? ==> r.v6[..12] != [0, 0, 0, 0, 0, 0, 0, 0, 0, 0, 255, 255]
    {
      UnmappedIsProper(peer);
      WalkedIsUnmapped(Entries(xff), Unmap(peer));
      UnmappedIsProper(Walked(Entries(xff), Unmap(peer)));
      var p := Unmap(peer);
      if |trusted| == 0 || p == NoAddr { return p; }
      var ok := CheckTrusts(p);
      if !ok { return p; }
      r := Walk(xff, p);
    }

    lemma UnmappedIsProper(a: Addr)
      ensures Unmap(Unmap(a)) == Unmap(a) && (Unmap(a) == a && a.V6? ==> Proper(a.v6))
    {
      if a.V6? { UnmapExactly(a.v6, a.v6[12..]); }
    }

    lemma {:induction false} WalkedIsUnmapped(es: seq<string>, peer: Addr)
      requires Unmap(peer) == peer
      ensures Unmap(Walked(es, peer)) == Walked(es, peer)
    {
      hide TrimSpace;
      if es != [] { WalkedIsUnmapped(es[..|es| - 1], peer); }
    }

    /** Entry i is where the walk stops: it names an untrusted address and every entry to its right is a hop. */
    ghost predicate StopsAt(es: seq<string>, i: nat) {
      && i < |es| && Named(es[i]).Some? && !Trusts(Named(es[i]).value)
      && forall j :: i < j < |es| ==> Hop(es[j])
    }

    lemma StopsBefore(es: seq<string>, i: nat)
      requires i + 1 < |es|
      ensures StopsAt(es, i) <==> Hop(es[|es| - 1]) && StopsAt(es[..|es| - 1], i)
    {
      hide ParseEntry, TrimSpace;
      var n := |es| - 1;
      var front := es[..n];
      if Hop(es[n]) && StopsAt(front, i) {
        forall j | i < j < |es| ensures Hop(es[j]) { if j < n { assert Hop(front[j]); } }
      }
      if StopsAt(es, i) {
        forall j | i < j < n ensures Hop(front[j]) { assert Hop(es[j]); }
      }
    }

    /** The walk returns the rightmost untrusted address with nothing but hops to its right, and otherwise the peer. */
    lemma {:induction false} WalkedIs(es: seq<string>, peer: Addr)
      ensures forall i: nat :: StopsAt(es, i) ==> Walked(es, peer) == Named(es[i]).value
      ensures (forall i: nat :: !StopsAt(es, i)) ==> Walked(es, peer) == peer
    {
      hide ParseEntry, TrimSpace;
      if es != [] {
        var n := |es| - 1;
        WalkedIs(es[..n], peer);
        forall i: nat | i < n ensures StopsAt(es, i) <==> Hop(es[n]) && StopsAt(es[..n], i) { StopsBefore(es, i); }
        assert StopsAt(es, n) <==> Named(es[n]).Some? && !Hop(es[n]);
      }
    }

    lemma WalkedNext(es: seq<string>, last: string, peer: Addr)
      ensures Walked(es + [last], peer) == if Hop(last) then Walked(es, peer) else Walked([last], peer)
    {
      hide ParseEntry, TrimSpace;
      assert (es + [last])[..|es|] == es;
    }

    /** What stands to the left of the last entries is consulted only if every one of them is a hop. */
    lemma {:induction false} OnlyPastHops(left: seq<string>, right: seq<string>, peer: Addr)
      ensures Walked(left + right, peer) ==
              if forall j :: 0 <= j < |right| ==> Hop(right[j]) then Walked(left, peer) else Walked(right, peer)
      decreases |right|
    {
      hide ParseEntry, TrimSpace, Named, Trusts;
      if right == [] {
        assert left + right == left;
      } else {
        var n := |right| - 1;
        var last := right[n];
        OnlyPastHops(left, right[..n], peer);
        WalkedNext(left + right[..n], last, peer);
        WalkedNext(right[..n], last, peer);
        assert left + right == left + right[..n] + [last] && right == right[..n] + [last];
        hide Walked;
      }
    }

    /** g is e with spaces, if any, before and after it. */
    ghost predicate Spaced(g: string, e: string) {
      exists a, b :: Blank(a) && Blank(b) && g == a + e + b
    }

    lemma SpacedNames(g: string, e: string)
      requires Spaced(g, e)
      ensures Named(g) == Named(e)
    {
      var a, b :| Blank(a) && Blank(b) && g == a + e + b;
      TrimSpaced(a, e, b);
      hide ParseEntry, TrimSpace;
    }

    /** Spaces around entries change no answer. */
    lemma {:induction false} SpacesDoNotMatter(gs: seq<string>, es: seq<string>, peer: Addr)
      requires |gs| == |es| && forall i :: 0 <= i < |es| ==> Spaced(gs[i], es[i])
      ensures Walked(gs, peer) == Walked(es, peer)
    {
      hide Spaced, Named;
      if es != [] {
        var n := |es| - 1;
        SpacedNames(gs[n], es[n]);
        SpacesDoNotMatter(gs[..n], es[..n], peer);
      }
    }

    /** So a header in the usual style, with a space after its commas, is read as one without. */
    lemma SpacedHeader(left: string, a: string, last: string, b: string, peer: Addr)
      requires Blank(a) && Blank(b) && LastComma(last) == -1
      ensures Walked(Entries(left + "," + a + last + b), peer) == Walked(Entries(left + "," + last), peer)
    {
      SpacedIsOneEntry(a, last, b);
      var g := a + last + b;
      assert left + "," + a + last + b == left + "," + g;
      EntriesJoin(left, g);
      EntriesJoin(left, last);
      var es, gs := Entries(left) + [last], Entries(left) + [g];
      assert Spaced(g, last);
      forall i | 0 <= i < |es| ensures Spaced(gs[i], es[i]) {
        if i < |es| - 1 { assert Blank("") && gs[i] == "" + es[i] + ""; }
      }
      SpacesDoNotMatter(gs, es, peer);
    }

    lemma SpacedIsOneEntry(a: string, last: string, b: string)
      requires Blank(a) && Blank(b) && LastComma(last) == -1
      ensures Entries(a + last + b) == [a + last + b] && Entries(last) == [last]
    {
      var g := a + last + b;
      forall k | 0 <= k < |g| ensures g[k] != ',' {
        if k < |a| { assert g[k] == a[k]; }
        else if k < |a + last| { assert g[k] == last[k - |a|]; }
        else { assert g[k] == b[k - |a + last|]; }
      }
    }

    /**
     A proxy appends what it saw. If what follows the client's own text holds anything but trusted hops,
     that text has no influence, whatever it is; otherwise the walk goes on into it.
     */
    lemma ClientTextIsUnreachable(text: string, appended: string, peer: Addr)
      ensures var es := Entries(appended);
        Walked(Entries(text + "," + appended), peer) ==
        if forall j :: 0 <= j < |es| ==> Hop(es[j]) then Walked(Entries(text), peer) else Walked(es, peer)
    {
      EntriesJoin(text, appended);
      OnlyPastHops(Entries(text), Entries(appended), peer);
    }
  }

  lemma EntriesAt(s: string, i: nat)
    requires i < |s| && s[i] == ',' && forall k :: i < k < |s| ==> s[k] != ','
    ensures Entries(s) == Entries(s[..i]) + [s[i + 1..]]
  {
    LastCommaIs(s, i);
  }

  lemma EntriesAround(head: string, last: string)
    requires LastComma(last) < 0
    ensures Entries(head + "," + last) == Entries(head) + [last] && Entries(last) == [last]
  {
    var u := head + "," + last;
    assert u[..|head|] == head && u[|head| + 1..] == last;
    EntriesAt(u, |head|);
  }

  lemma NoCommaAfter(t: string, i: nat)
    requires i < |t| && i == LastComma(t)
    ensures LastComma(t[i + 1..]) < 0
  {
  }

  /** Entries of texts joined by a comma are the entries of each. */
  lemma {:induction false} EntriesJoin(s: string, t: string)
    ensures Entries(s + "," + t) == Entries(s) + Entries(t)
    decreases |t|
  {
    var i := LastComma(t);
    if i < 0 {
      EntriesAround(s, t);
    } else {
      var head, last := t[..i], t[i + 1..];
      NoCommaAfter(t, i);
      assert t == head + "," + last && s + "," + t == (s + "," + head) + "," + last;
      EntriesAround(head, last);
      EntriesAround(s + "," + head, last);
      EntriesJoin(s, head);
      hide Entries;
    }
  }

  lemma LastCommaIs(s: string, i: nat)
    requires i < |s| && s[i] == ',' && forall k :: i < k < |s| ==> s[k] != ','
    ensures LastComma(s) == i
  {
  }
}

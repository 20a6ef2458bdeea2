/** Which forwarded entry is the client (backend/app/core/client_ip.py).  `parse` reads an address
    from a stripped entry, `trusted` says whether one of our networks holds it. */
module ForwardedChain {

  import opened Options
  import opened Text

  type Address = string

  /** How the walk from the right ends. */
  datatype Walk = Found(address: Address) | Malformed | Exhausted

  /** `s.split(",")`: always at least one entry. */
  function Split(s: string): (entries: seq<string>)
    ensures |entries| > 0
  {
    if s == [] then [[]] else Prepend(s[0], Split(s[1..]))
  }

  function Prepend(c: char, entries: seq<string>): (more: seq<string>)
    requires |entries| > 0
    ensures |more| > 0
  {
    if c == ',' then [[]] + entries else [[c] + entries[0]] + entries[1..]
  }

  function WalkBack(entries: seq<string>, parse: string -> Option<Address>, trusted: Address -> bool): Walk {
    if entries == [] then Exhausted
    else
      var n := |entries| - 1;
      var hop := parse(Strip(entries[n]));
      if hop.None? then Malformed
      else if !trusted(hop.value) then Found(hop.value)
      else WalkBack(entries[..n], parse, trusted)
  }

  function NearestUntrustedHop(chain: string, parse: string -> Option<Address>, trusted: Address -> bool): Option<Address> {
    var walk := WalkBack(Split(chain), parse, trusted);
    if walk.Found? then Some(walk.address) else None
  }

  /** All values of a repeated header, as one chain. */
  function Joined(values: seq<string>): string {
    if values == [] then [] else if |values| == 1 then values[0] else values[0] + "," + Joined(values[1..])
  }

  function ClientIp(edgeValid: bool, edge: seq<string>, forwardedTrusted: bool, forwarded: seq<string>, peer: Address,
                    parse: string -> Option<Address>, trusted: Address -> bool): Address
  {
    var vouched := if edgeValid then NearestUntrustedHop(Joined(edge), parse, trusted) else None;
    if vouched.Some? then vouched.value
    else if !forwardedTrusted then peer
    else
      var hop := NearestUntrustedHop(Joined(forwarded), parse, trusted);
      if hop.Some? then hop.value else peer
  }

  // -------------------------------------------------------------- the suffix decides

  lemma PrependConcat(c: char, a: seq<string>, b: seq<string>)
    requires |a| > 0
    ensures Prepend(c, a + b) == Prepend(c, a) + b
  {
    assert (a + b)[0] == a[0] && (a + b)[1..] == a[1..] + b;
  }

  lemma {:induction false} SplitAtComma(a: string, b: string)
    ensures Split(a + "," + b) == Split(a) + Split(b)
  {
    var whole := a + "," + b;
    if a == [] {
      assert whole[1..] == b;
    } else {
      assert whole[1..] == a[1..] + "," + b;
      SplitAtComma(a[1..], b);
      PrependConcat(a[0], Split(a[1..]), Split(b));
    }
  }

  /** With `SplitAtComma`: the entries are the texts between commas. */
  lemma {:induction false} SplitPlain(s: string)
    requires ',' !in s
    ensures Split(s) == [s]
  {
    if s != [] {
      SplitPlain(s[1..]);
      assert s == [s[0]] + s[1..];
    }
  }

  lemma {:induction false} WalkConcat(a: seq<string>, b: seq<string>, parse: string -> Option<Address>, trusted: Address -> bool)
    ensures WalkBack(a + b, parse, trusted) ==
            if WalkBack(b, parse, trusted).Exhausted? then WalkBack(a, parse, trusted) else WalkBack(b, parse, trusted)
    decreases |b|
  {
    if b == [] {
      assert a + b == a;
    } else {
      var n := |b| - 1;
      assert (a + b)[..|a| + n] == a + b[..n];
      WalkConcat(a, b[..n], parse, trusted);
    }
  }

  lemma {:induction false} JoinedConcat(a: seq<string>, b: seq<string>)
    requires a != [] && b != []
    ensures Joined(a + b) == Joined(a) + "," + Joined(b)
  {
    assert (a + b)[1..] == a[1..] + b;
    if |a| > 1 { JoinedConcat(a[1..], b); }
  }

  /** If the walk stops inside what our proxies appended, at an untrusted hop or at a malformed
      entry, nothing the caller put before it matters. */
  lemma CallerTextIgnored(caller: string, appended: string, parse: string -> Option<Address>, trusted: Address -> bool)
    requires !WalkBack(Split(appended), parse, trusted).Exhausted?
    ensures NearestUntrustedHop(caller + "," + appended, parse, trusted) == NearestUntrustedHop(appended, parse, trusted)
  {
    SplitAtComma(caller, appended);
    WalkConcat(Split(caller), Split(appended), parse, trusted);
  }

  /** The chain is what our proxies appended, alone or after a comma. */
  predicate EndsIn(chain: string, appended: string) {
    chain == appended ||
    (|chain| > |appended| && chain[|chain| - |appended| - 1] == ',' && chain[|chain| - |appended|..] == appended)
  }

  /** What a caller can send: anything in a header without its guarantee, and with it any text, in the
      same line or in earlier ones, before what our proxies appended. */
  ghost predicate CallerSends(guaranteed: bool, lines: seq<string>, appended: string, parse: string -> Option<Address>, trusted: Address -> bool) {
    guaranteed ==> EndsIn(Joined(lines), appended) && !WalkBack(Split(appended), parse, trusted).Exhausted?
  }

  /** Whole lines our proxies added are one way to end in what they appended. */
  lemma LinesEndIn(caller: seq<string>, added: seq<string>)
    requires added != []
    ensures EndsIn(Joined(caller + added), Joined(added))
  {
    if caller == [] {
      assert caller + added == added;
    } else {
      JoinedConcat(caller, added);
    }
  }

  lemma AppendedDecides(chain: string, appended: string, parse: string -> Option<Address>, trusted: Address -> bool)
    requires EndsIn(chain, appended) && !WalkBack(Split(appended), parse, trusted).Exhausted?
    ensures NearestUntrustedHop(chain, parse, trusted) == NearestUntrustedHop(appended, parse, trusted)
  {
    if chain != appended {
      var caller := chain[..|chain| - |appended| - 1];
      assert chain == caller + "," + appended;
      CallerTextIgnored(caller, appended, parse, trusted);
    }
  }

  /** Nor do whole header lines the caller sends first. */
  lemma CallerLinesIgnored(caller: seq<string>, added: seq<string>, parse: string -> Option<Address>, trusted: Address -> bool)
    requires added != [] && !WalkBack(Split(Joined(added)), parse, trusted).Exhausted?
    ensures NearestUntrustedHop(Joined(caller + added), parse, trusted) == NearestUntrustedHop(Joined(added), parse, trusted)
  {
    LinesEndIn(caller, added);
    AppendedDecides(Joined(caller + added), Joined(added), parse, trusted);
  }

  /** No caller chooses its address: two requests that our proxies passed on alike get the same one,
      whatever their senders put into either header. */
  lemma CallerCannotChoose(edgeValid: bool, edge: seq<string>, edgeAppended: string, forwardedTrusted: bool, forwarded: seq<string>,
                           appended: string, otherEdge: seq<string>, otherForwarded: seq<string>, peer: Address,
                           parse: string -> Option<Address>, trusted: Address -> bool)
    requires CallerSends(edgeValid, edge, edgeAppended, parse, trusted) && CallerSends(edgeValid, otherEdge, edgeAppended, parse, trusted)
    requires CallerSends(forwardedTrusted, forwarded, appended, parse, trusted)
    requires CallerSends(forwardedTrusted, otherForwarded, appended, parse, trusted)
    ensures ClientIp(edgeValid, edge, forwardedTrusted, forwarded, peer, parse, trusted) ==
            ClientIp(edgeValid, otherEdge, forwardedTrusted, otherForwarded, peer, parse, trusted)
  {
    SentIgnored(edgeValid, edge, otherEdge, edgeAppended, parse, trusted);
    SentIgnored(forwardedTrusted, forwarded, otherForwarded, appended, parse, trusted);
    SameHops(edgeValid, edge, forwardedTrusted, forwarded, otherEdge, otherForwarded, peer, parse, trusted);
  }

  ghost predicate SameHop(guaranteed: bool, lines: seq<string>, other: seq<string>, parse: string -> Option<Address>, trusted: Address -> bool) {
    guaranteed ==> NearestUntrustedHop(Joined(lines), parse, trusted) == NearestUntrustedHop(Joined(other), parse, trusted)
  }

  lemma SentIgnored(guaranteed: bool, lines: seq<string>, other: seq<string>, appended: string, parse: string -> Option<Address>, trusted: Address -> bool)
    requires CallerSends(guaranteed, lines, appended, parse, trusted) && CallerSends(guaranteed, other, appended, parse, trusted)
    ensures SameHop(guaranteed, lines, other, parse, trusted)
  {
    if guaranteed {
      AppendedDecides(Joined(lines), appended, parse, trusted);
      AppendedDecides(Joined(other), appended, parse, trusted);
    }
  }

  lemma SameHops(edgeValid: bool, edge: seq<string>, forwardedTrusted: bool, forwarded: seq<string>, otherEdge: seq<string>,
                 otherForwarded: seq<string>, peer: Address, parse: string -> Option<Address>, trusted: Address -> bool)
    requires SameHop(edgeValid, edge, otherEdge, parse, trusted) && SameHop(forwardedTrusted, forwarded, otherForwarded, parse, trusted)
    ensures ClientIp(edgeValid, edge, forwardedTrusted, forwarded, peer, parse, trusted) ==
            ClientIp(edgeValid, otherEdge, forwardedTrusted, otherForwarded, peer, parse, trusted)
  {
  }

  // ------------------------------------------------------------------ which address it is

  ghost predicate TrustedEntry(entry: string, parse: string -> Option<Address>, trusted: Address -> bool) {
    parse(Strip(entry)).Some? && trusted(parse(Strip(entry)).value)
  }

  /** An entry of the chain, outside every trusted network, with only our proxies to its right. */
  ghost predicate RightmostUntrusted(entries: seq<string>, address: Address, parse: string -> Option<Address>, trusted: Address -> bool) {
    !trusted(address) && exists i | 0 <= i < |entries| ::
      parse(Strip(entries[i])) == Some(address) && forall j | i < j < |entries| :: TrustedEntry(entries[j], parse, trusted)
  }

  lemma {:induction false} FoundIsRightmostUntrusted(entries: seq<string>, address: Address, parse: string -> Option<Address>, trusted: Address -> bool)
    ensures WalkBack(entries, parse, trusted) == Found(address) <==> RightmostUntrusted(entries, address, parse, trusted)
  {
    if entries != [] {
      var n := |entries| - 1;
      var shorter := entries[..n];
      if TrustedEntry(entries[n], parse, trusted) {
        FoundIsRightmostUntrusted(shorter, address, parse, trusted);
        assert forall i | 0 <= i < n :: shorter[i] == entries[i];
      }
    }
  }

  /** The header may be believed and its chain has an untrusted hop before anything malformed. */
  ghost predicate Usable(guaranteed: bool, lines: seq<string>, parse: string -> Option<Address>, trusted: Address -> bool) {
    guaranteed && exists address :: RightmostUntrusted(Split(Joined(lines)), address, parse, trusted)
  }

  lemma HopIff(lines: seq<string>, address: Address, parse: string -> Option<Address>, trusted: Address -> bool)
    ensures NearestUntrustedHop(Joined(lines), parse, trusted) == Some(address) <==>
            RightmostUntrusted(Split(Joined(lines)), address, parse, trusted)
    ensures NearestUntrustedHop(Joined(lines), parse, trusted).Some? <==> Usable(true, lines, parse, trusted)
  {
    var entries := Split(Joined(lines));
    FoundIsRightmostUntrusted(entries, address, parse, trusted);
    if WalkBack(entries, parse, trusted).Found? {
      FoundIsRightmostUntrusted(entries, WalkBack(entries, parse, trusted).address, parse, trusted);
    } else if some :| RightmostUntrusted(entries, some, parse, trusted) {
      FoundIsRightmostUntrusted(entries, some, parse, trusted);
    }
  }

  /** The address a request gets is the rightmost untrusted entry of the first usable header, the edge
      chain before the forwarded one, or the peer if neither is usable. */
  lemma ClientIff(edgeValid: bool, edge: seq<string>, forwardedTrusted: bool, forwarded: seq<string>, peer: Address, address: Address,
                  parse: string -> Option<Address>, trusted: Address -> bool)
    ensures ClientIp(edgeValid, edge, forwardedTrusted, forwarded, peer, parse, trusted) == address <==>
      if Usable(edgeValid, edge, parse, trusted) then RightmostUntrusted(Split(Joined(edge)), address, parse, trusted)
      else if Usable(forwardedTrusted, forwarded, parse, trusted) then RightmostUntrusted(Split(Joined(forwarded)), address, parse, trusted)
      else address == peer
  {
    HopIff(edge, address, parse, trusted);
    HopIff(forwarded, address, parse, trusted);
  }
}

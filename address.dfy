/**
 * The visitor key of the vote ledger: the network address that the HTTP
 * controller derives from a request (apps/backend/src/app/app.controller.ts,
 * extractIpAddress). Headers are modelled as optional strings; a JavaScript
 * truthiness check on a header is "present and not the empty string".
 */
module Address {
  import opened Wrappers

  /** The parts of an Express request that the address extraction looks at. */
  datatype Request = Request(
    forwardedFor: Option<string>,   // header `x-forwarded-for`
    realIp: Option<string>,         // header `x-real-ip`
    remoteAddress: Option<string>)  // `req.socket.remoteAddress`

  const Unknown: string := "unknown"

  /** JavaScript truthiness of an optional string: present and non-empty. */
  predicate Truthy(h: Option<string>) {
    h.Some? && h.value != ""
  }

  /**
   * The characters that `String.prototype.trim` removes: the ECMAScript
   * WhiteSpace code points (TAB, VT, FF, SP, NBSP, ZWNBSP and the other
   * "Zs" space separators) and the LineTerminator code points (LF, CR,
   * LS, PS).
   */
  predicate IsTrimmable(c: char) {
    c in TrimmableChars
  }

  const TrimmableChars: set<char> := {
    '\t', '\n', '\U{000B}', '\U{000C}', '\r', ' ', '\U{00A0}', '\U{1680}',
    '\U{2000}', '\U{2001}', '\U{2002}', '\U{2003}', '\U{2004}', '\U{2005}',
    '\U{2006}', '\U{2007}', '\U{2008}', '\U{2009}', '\U{200A}',
    '\U{2028}', '\U{2029}', '\U{202F}', '\U{205F}', '\U{3000}', '\U{FEFF}'
  }

  /** Every character of `s` is trimmable. */
  predicate IsBlank(s: string) {
    forall k :: 0 <= k < |s| ==> IsTrimmable(s[k])
  }

  /** Neither the first nor the last character of `s` would be removed by trim. */
  predicate NoOuterWhitespace(s: string) {
    s == [] || (!IsTrimmable(s[0]) && !IsTrimmable(s[|s| - 1]))
  }

  /** The number of trimmable characters `s` starts with: the index of its first other character, or |s|. */
  function LeadingBlanks(s: string): (n: nat)
    ensures n <= |s|
    ensures forall k :: 0 <= k < n ==> IsTrimmable(s[k])
    ensures n == |s| || !IsTrimmable(s[n])
  {
    if s != [] && IsTrimmable(s[0]) then 1 + LeadingBlanks(s[1..]) else 0
  }

  /** The number of trimmable characters `s` ends with. */
  function TrailingBlanks(s: string): (n: nat)
    ensures n <= |s|
    ensures forall k :: |s| - n <= k < |s| ==> IsTrimmable(s[k])
    ensures n == |s| || !IsTrimmable(s[|s| - n - 1])
  {
    if s != [] && IsTrimmable(s[|s| - 1]) then 1 + TrailingBlanks(s[..|s| - 1]) else 0
  }

  /**
   * JavaScript `s.trim()`: the slice of `s` that starts at its first
   * non-trimmable character, has no outer whitespace, and is followed only
   * by trimmable characters.
   */
  function Trim(s: string): (r: string)
    ensures NoOuterWhitespace(r)
    ensures LeadingBlanks(s) + |r| <= |s|
    ensures r == s[LeadingBlanks(s)..LeadingBlanks(s) + |r|]
    ensures forall k :: LeadingBlanks(s) + |r| <= k < |s| ==> IsTrimmable(s[k])
  {
    var i := LeadingBlanks(s);
    if i == |s| then []
    else
      var j := |s| - TrailingBlanks(s);
      assert i < j;
      s[i..j]
  }

  /** The first non-trimmable character of `s` is at `n`: LeadingBlanks is determined by it. */
  lemma LeadingBlanksAt(s: string, n: nat)
    requires n < |s| && !IsTrimmable(s[n])
    requires forall k :: 0 <= k < n ==> IsTrimmable(s[k])
    ensures LeadingBlanks(s) == n
  {
    var m := LeadingBlanks(s);
    if m < n {
      assert false;
    } else if m > n {
      assert false;
    }
  }

  /** The last non-trimmable character of `s` is at |s| - n - 1: TrailingBlanks is determined by it. */
  lemma TrailingBlanksAt(s: string, n: nat)
    requires n < |s| && !IsTrimmable(s[|s| - n - 1])
    requires forall k :: |s| - n <= k < |s| ==> IsTrimmable(s[k])
    ensures TrailingBlanks(s) == n
  {
    var m := TrailingBlanks(s);
    if m < n {
      assert false;
    } else if m > n {
      assert false;
    }
  }

  /** JavaScript `s.split(',')[0]`: the longest prefix of `s` without a comma. */
  function FirstSegment(s: string): (r: string)
    ensures |r| <= |s| && r == s[..|r|]
    ensures ',' !in r
    ensures |r| == |s| || s[|r|] == ','
  {
    if s == [] || s[0] == ',' then [] else [s[0]] + FirstSegment(s[1..])
  }

  /**
   * `extractIpAddress`: the first entry of `x-forwarded-for`, trimmed;
   * otherwise `x-real-ip` verbatim; otherwise the socket's remote address;
   * otherwise "unknown". Each test is a truthiness test.
   */
  function ExtractIpAddress(req: Request): string {
    if Truthy(req.forwardedFor) then Trim(FirstSegment(req.forwardedFor.value))
    else if Truthy(req.realIp) then req.realIp.value
    else if Truthy(req.remoteAddress) then req.remoteAddress.value
    else Unknown
  }

  /**
   * A key taken from `x-forwarded-for` has no comma and no outer whitespace,
   * and it is no longer than the header.
   */
  lemma ForwardedKeyIsTrimmedFirstEntry(req: Request)
    requires Truthy(req.forwardedFor)
    ensures ',' !in ExtractIpAddress(req)
    ensures NoOuterWhitespace(ExtractIpAddress(req))
    ensures |ExtractIpAddress(req)| <= |req.forwardedFor.value|
  {
    var seg := FirstSegment(req.forwardedFor.value);
    SliceAvoids(seg, LeadingBlanks(seg), Trim(seg), ',');
  }

  /** A slice of a string without `c` has no `c` either. */
  lemma SliceAvoids(s: string, d: nat, r: string, c: char)
    requires c !in s && d + |r| <= |s| && r == s[d..d + |r|]
    ensures c !in r
  {
    forall k | 0 <= k < |r| ensures r[k] != c {
      assert r[k] == s[d + k];
    }
  }

  /** Trimming a comma-free string with no outer whitespace leaves it as it is. */
  lemma {:induction false} SettledSegment(s: string)
    requires ',' !in s && NoOuterWhitespace(s)
    ensures Trim(FirstSegment(s)) == s
  {
    SplitKeepsCommaFree(s);
    if s != [] {
      TrimPadded("", s, "");
      assert "" + s + "" == s;
    }
  }

  lemma {:induction false} SplitKeepsCommaFree(s: string)
    requires ',' !in s
    ensures FirstSegment(s) == s
  {
    if s != [] {
      assert s[0] in s;
      SplitKeepsCommaFree(s[1..]);
    }
  }

  /**
   * Re-extracting an address from a forwarded header that holds only a
   * previously extracted (non-empty) key yields that key again.
   */
  lemma ReExtractionIsStable(req: Request, realIp: Option<string>, remote: Option<string>)
    requires Truthy(req.forwardedFor) && ExtractIpAddress(req) != ""
    ensures var ip := ExtractIpAddress(req);
      ExtractIpAddress(Request(Some(ip), realIp, remote)) == ip
  {
    ForwardedKeyIsTrimmedFirstEntry(req);
    SettledSegment(ExtractIpAddress(req));
  }

  /**
   * Strict precedence: a truthy header hides every source below it, and an
   * empty-string header is the same as an absent one.
   */
  lemma Precedence(req: Request)
    ensures Truthy(req.forwardedFor) ==>
      forall r, a :: ExtractIpAddress(Request(req.forwardedFor, r, a)) == ExtractIpAddress(req)
    ensures !Truthy(req.forwardedFor) && Truthy(req.realIp) ==>
      ExtractIpAddress(req) == req.realIp.value
    ensures !Truthy(req.forwardedFor) && !Truthy(req.realIp) ==>
      ExtractIpAddress(req) == (if Truthy(req.remoteAddress) then req.remoteAddress.value else Unknown)
    ensures ExtractIpAddress(Request(Some(""), req.realIp, req.remoteAddress))
         == ExtractIpAddress(Request(None, req.realIp, req.remoteAddress))
    ensures ExtractIpAddress(Request(req.forwardedFor, Some(""), req.remoteAddress))
         == ExtractIpAddress(Request(req.forwardedFor, None, req.remoteAddress))
  {
  }

  /**
   * The extracted key is empty only when `x-forwarded-for` is truthy and its
   * first entry is nothing but whitespace; every other path gives a non-empty key.
   */
  lemma EmptyKeyOnlyFromBlankFirstEntry(req: Request)
    ensures ExtractIpAddress(req) == "" <==>
      Truthy(req.forwardedFor) && IsBlank(FirstSegment(req.forwardedFor.value))
  {
    assert Unknown != "";
    if Truthy(req.forwardedFor) {
      TrimEmptyIffBlank(FirstSegment(req.forwardedFor.value));
    }
  }

  /** `s.trim()` is empty exactly when every character of `s` is trimmable. */
  lemma TrimEmptyIffBlank(s: string)
    ensures Trim(s) == "" <==> IsBlank(s)
  {
    var i := LeadingBlanks(s);
    if Trim(s) == "" && i < |s| {
      assert false;
    }
  }

  /** The header " , 10.0.0.1" gives the empty key rather than falling through. */
  lemma BlankFirstEntryGivesEmptyKey()
    ensures ExtractIpAddress(Request(Some(" , 10.0.0.1"), Some("10.0.0.2"), Some("10.0.0.3"))) == ""
  {
    assert FirstSegment(" , 10.0.0.1") == " ";
  }

  /** The first entry of a comma-separated list is the part before the first separator. */
  lemma {:induction false} FirstSegmentOfList(first: string, rest: string)
    requires ',' !in first
    ensures FirstSegment(first + "," + rest) == first
  {
    if first != [] {
      assert first[0] in first;
      assert (first + "," + rest)[1..] == first[1..] + "," + rest;
      FirstSegmentOfList(first[1..], rest);
    } else {
      assert first + "," + rest == [','] + rest;
    }
  }

  /** Trimming a padded string gives back what the padding surrounds. */
  lemma TrimPadded(lead: string, client: string, trail: string)
    requires IsBlank(lead) && IsBlank(trail) && NoOuterWhitespace(client) && client != ""
    ensures Trim(lead + client + trail) == client
  {
    var w := lead + client + trail;
    assert w[|lead|] == client[0];
    assert w[|w| - |trail| - 1] == client[|client| - 1];
    assert forall k :: 0 <= k < |lead| ==> w[k] == lead[k];
    assert forall k :: |w| - |trail| <= k < |w| ==> w[k] == trail[k - |lead| - |client|];
    LeadingBlanksAt(w, |lead|);
    TrailingBlanksAt(w, |trail|);
    assert w[|lead|..|lead| + |client|] == client;
  }

  /**
   * Behind proxies, `x-forwarded-for` reads "client, proxy1, proxy2"; the key
   * is the client's address, whatever padding surrounds it and whatever the
   * other headers say.
   */
  lemma ForwardedListGivesClient(lead: string, client: string, trail: string, proxies: string,
                                 realIp: Option<string>, remote: Option<string>)
    requires IsBlank(lead) && IsBlank(trail)
    requires client != "" && ',' !in client && NoOuterWhitespace(client)
    ensures ExtractIpAddress(Request(Some(lead + client + trail + "," + proxies), realIp, remote)) == client
  {
    var first := lead + client + trail;
    assert !IsTrimmable(',');
    assert ',' !in first by {
      forall i | 0 <= i < |first| ensures first[i] != ',' {
        if i < |lead| {
          assert first[i] == lead[i];
        } else if i < |lead| + |client| {
          assert first[i] == client[i - |lead|];
        } else {
          assert first[i] == trail[i - |lead| - |client|];
        }
      }
    }
    FirstSegmentOfList(first, proxies);
    TrimPadded(lead, client, trail);
    var h := first + "," + proxies;
    assert h != "" && Truthy(Some(h));
  }

}

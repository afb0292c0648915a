/**
 * The discovery port's request matcher: a message is a discovery request
 * when, with surrounding white space removed, it is "discover" in any case,
 * or it contains "device_info". White space and lower-casing follow Go's
 * `strings.TrimSpace` and `strings.ToLower`.
 */
module Discovery {

  /** Go's `unicode.IsSpace`. */
  predicate IsSpace(c: char)
  {
    c == ' ' || c == '\t' || c == '\n' || c == '\U{000B}' || c == '\U{000C}' || c == '\r'
    || c == '\U{0085}' || c == '\U{00A0}' || c == '\U{1680}' || ('\U{2000}' <= c <= '\U{200A}')
    || c == '\U{2028}' || c == '\U{2029}' || c == '\U{202F}' || c == '\U{205F}' || c == '\U{3000}'
  }

  predicate AllSpace(s: string)
  {
    forall i :: 0 <= i < |s| ==> IsSpace(s[i])
  }

  /** The first index at or after `k` that is not white space (or |s|). */
  function TrimStart(s: string, k: nat): (lo: nat)
    requires k <= |s|
    ensures k <= lo <= |s|
    ensures forall j :: k <= j < lo ==> IsSpace(s[j])
    ensures lo < |s| ==> !IsSpace(s[lo])
    decreases |s| - k
  {
    if k < |s| && IsSpace(s[k]) then TrimStart(s, k + 1) else k
  }

  /** The index just past the last character before `k`, and not before
      `lo`, that is not white space (or `lo`). */
  function TrimEnd(s: string, lo: nat, k: nat): (hi: nat)
    requires lo <= k <= |s|
    ensures lo <= hi <= k
    ensures forall j :: hi <= j < k ==> IsSpace(s[j])
    ensures hi > lo ==> !IsSpace(s[hi - 1])
    decreases k
  {
    if k > lo && IsSpace(s[k - 1]) then TrimEnd(s, lo, k - 1) else k
  }

  /** Go's `strings.TrimSpace`: the part between the leading and the
      trailing white space. */
  function TrimSpace(s: string): (r: string)
    ensures |r| <= |s|
    ensures r == [] || (!IsSpace(r[0]) && !IsSpace(r[|r| - 1]))
    ensures r == [] <==> AllSpace(s)
  {
    var lo := TrimStart(s, 0);
    s[lo..TrimEnd(s, lo, |s|)]
  }

  /** Go's `unicode.ToLower` on the characters whose lower case is ASCII:
      A to Z, U+0130 (capital I with dot, lowered to 'i') and U+212A (the
      Kelvin sign, lowered to 'k'). Every other character is kept. */
  function LowerChar(c: char): (r: char)
    ensures 'A' <= c <= 'Z' ==> r as int == c as int + 32
    ensures c == '\U{0130}' ==> r == 'i'
    ensures c == '\U{212A}' ==> r == 'k'
    ensures !('A' <= c <= 'Z') && c != '\U{0130}' && c != '\U{212A}' ==> r == c
  {
    if 'A' <= c <= 'Z' then (c as int + 32) as char
    else if c == '\U{0130}' then 'i'
    else if c == '\U{212A}' then 'k'
    else c
  }

  /** Go's `strings.ToLower`, character by character. */
  function ToLower(s: string): (r: string)
    ensures |r| == |s|
    ensures forall i :: 0 <= i < |s| ==> r[i] == LowerChar(s[i])
  {
    seq(|s|, i requires 0 <= i < |s| => LowerChar(s[i]))
  }

  /** The characters that lower to a lower-case ASCII letter: the letter
      itself, its capital, and for 'i' and 'k' one more character each. */
  lemma LowerCharTo(c: char, x: char)
    requires 'a' <= x <= 'z'
    ensures LowerChar(c) == x <==>
      c == x || c as int == x as int - 32 || (x == 'i' && c == '\U{0130}') || (x == 'k' && c == '\U{212A}')
  {
  }

  /** The words that lower to "discover": eight characters, each the lower-
      or upper-case letter, or for the 'i' the capital I with dot above. */
  lemma DiscoverWords(w: string)
    ensures ToLower(w) == "discover" <==>
      |w| == 8 && forall i | 0 <= i < 8 ::
        w[i] == "discover"[i] || w[i] == "DISCOVER"[i] || (i == 1 && w[i] == '\U{0130}')
  {
    var d, u := "discover", "DISCOVER";
    if |w| == 8 {
      forall i | 0 <= i < 8
        ensures LowerChar(w[i]) == d[i] <==> (w[i] == d[i] || w[i] == u[i] || (i == 1 && w[i] == '\U{0130}'))
      {
        LowerCharTo(w[i], d[i]);
      }
      assert ToLower(w) == d <==> forall i | 0 <= i < 8 :: ToLower(w)[i] == d[i];
    }
  }

  /** `sub` occurs in `s` at index `i`. */
  predicate OccursAt(s: string, sub: string, i: int)
  {
    0 <= i && i + |sub| <= |s| && s[i..i + |sub|] == sub
  }

  /** Go's `strings.Contains`. */
  predicate Contains(s: string, sub: string)
  {
    exists i | 0 <= i <= |s| :: OccursAt(s, sub, i)
  }

  /** The test of `handleBroadcastMessages`. */
  predicate IsDiscoveryRequest(message: string)
  {
    var m := TrimSpace(message);
    ToLower(m) == "discover" || Contains(m, "device_info")
  }

  /** Trimming a word that neither begins nor ends with white space, with
      white space around it, gives back the word. */
  lemma TrimAround(pre: string, word: string, post: string)
    requires AllSpace(pre) && AllSpace(post)
    requires word != [] && !IsSpace(word[0]) && !IsSpace(word[|word| - 1])
    ensures TrimSpace(pre + word + post) == word
  {
    var s := pre + word + post;
    var lo := TrimStart(s, 0);
    assert s[|pre|] == word[0];
    assert forall j :: 0 <= j < |pre| ==> s[j] == pre[j];
    assert lo == |pre|;
    var hi := TrimEnd(s, lo, |s|);
    assert s[|pre| + |word| - 1] == word[|word| - 1];
    assert forall j :: |pre| + |word| <= j < |s| ==> s[j] == post[j - |pre| - |word|];
    assert hi == |pre| + |word|;
    assert s[lo..hi] == word;
  }

  /** Trimming twice is trimming once. */
  lemma TrimIdempotent(s: string)
    ensures TrimSpace(TrimSpace(s)) == TrimSpace(s)
  {
    var r := TrimSpace(s);
    if r != [] {
      TrimAround([], r, []);
      assert [] + r + [] == r;
    }
  }

  /** "discover" in any mix of cases, with any white space around it, is a
      discovery request. */
  lemma DiscoverInAnyCase(pre: string, word: string, post: string)
    requires AllSpace(pre) && AllSpace(post)
    requires ToLower(word) == "discover"
    ensures IsDiscoveryRequest(pre + word + post)
  {
    assert |word| == 8;
    assert LowerChar(word[0]) == 'd' && LowerChar(word[7]) == 'r';
    TrimAround(pre, word, post);
  }

  /** A message that contains "device_info" anywhere is a discovery request:
      trimming only removes white space, which "device_info" does not begin
      or end with. */
  lemma DeviceInfoAnywhere(message: string)
    requires Contains(message, "device_info")
    ensures IsDiscoveryRequest(message)
  {
    var sub := "device_info";
    assert sub[0] == 'd' && sub[|sub| - 1] == 'o';
    ContainedSurvivesTrim(message, sub);
  }

  /** Trimming keeps every occurrence of a string that neither begins nor
      ends with white space. */
  lemma ContainedSurvivesTrim(message: string, sub: string)
    requires Contains(message, sub)
    requires sub != [] && !IsSpace(sub[0]) && !IsSpace(sub[|sub| - 1])
    ensures Contains(TrimSpace(message), sub)
  {
    var i :| 0 <= i <= |message| && OccursAt(message, sub, i);
    var lo := TrimStart(message, 0);
    var hi := TrimEnd(message, lo, |message|);
    assert message[i] == message[i..i + |sub|][0];
    assert message[i + |sub| - 1] == message[i..i + |sub|][|sub| - 1];
    assert lo <= i;
    assert i + |sub| <= hi;
    SliceOfSlice(message, lo, hi, i - lo, i - lo + |sub|);
    assert OccursAt(TrimSpace(message), sub, i - lo);
  }

  /** `s[lo..hi]` is what is left between white space at both ends. */
  predicate SpaceAround(s: string, lo: int, hi: int)
    requires 0 <= lo <= hi <= |s|
  {
    AllSpace(s[..lo]) && AllSpace(s[hi..])
  }

  /** A message with the shape of a request: it contains "device_info",
      or it is a word lowering to "discover" with white space around it. */
  predicate RequestShaped(message: string)
  {
    || Contains(message, "device_info")
    || exists lo, hi | 0 <= lo <= hi <= |message| :: DiscoverBetween(message, lo, hi)
  }

  /** `message[lo..hi]` lowers to "discover" and only white space is
      around it. */
  predicate DiscoverBetween(message: string, lo: int, hi: int)
  {
    0 <= lo <= hi <= |message| && SpaceAround(message, lo, hi) && ToLower(message[lo..hi]) == "discover"
  }

  /** The requests are exactly the messages of that shape. */
  lemma RequestShapes(message: string)
    ensures IsDiscoveryRequest(message) <==> RequestShaped(message)
  {
    if IsDiscoveryRequest(message) {
      RequestIsShaped(message);
    }
    if RequestShaped(message) {
      ShapedIsRequest(message);
    }
  }

  /** Every request has that shape: the trimmed bounds are the witness. */
  lemma RequestIsShaped(message: string)
    requires IsDiscoveryRequest(message)
    ensures RequestShaped(message)
  {
    var lo := TrimStart(message, 0);
    var hi := TrimEnd(message, lo, |message|);
    if Contains(TrimSpace(message), "device_info") {
      ContainedInSlice(message, lo, hi, "device_info");
    } else {
      assert DiscoverBetween(message, lo, hi);
    }
  }

  /** Every message of that shape is a request. */
  lemma ShapedIsRequest(message: string)
    requires RequestShaped(message)
    ensures IsDiscoveryRequest(message)
  {
    if Contains(message, "device_info") {
      DeviceInfoAnywhere(message);
    } else {
      var lo, hi :| 0 <= lo <= hi <= |message| && DiscoverBetween(message, lo, hi);
      assert message == message[..lo] + message[lo..hi] + message[hi..];
      DiscoverInAnyCase(message[..lo], message[lo..hi], message[hi..]);
    }
  }

  /** An occurrence in a slice is an occurrence in the whole. */
  lemma ContainedInSlice(s: string, lo: nat, hi: nat, sub: string)
    requires lo <= hi <= |s| && Contains(s[lo..hi], sub)
    ensures Contains(s, sub)
  {
    var i :| 0 <= i <= hi - lo && OccursAt(s[lo..hi], sub, i);
    SliceOfSlice(s, lo, hi, i, i + |sub|);
    assert OccursAt(s, sub, lo + i);
  }

  /** A slice of a slice is a slice of the whole. */
  lemma SliceOfSlice(s: string, lo: nat, hi: nat, a: nat, b: nat)
    requires lo <= hi <= |s| && a <= b <= hi - lo
    ensures s[lo..hi][a..b] == s[lo + a..lo + b]
  {
    var l, r := s[lo..hi][a..b], s[lo + a..lo + b];
    assert forall k | 0 <= k < |l| :: l[k] == r[k];
  }

  /** A string does not contain another of its own length that starts
      differently. */
  lemma NotContainedWhenFirstDiffers(s: string, sub: string)
    requires |s| == |sub| > 0 && s[0] != sub[0]
    ensures !Contains(s, sub)
  {
    forall i | 0 <= i <= |s|
      ensures !OccursAt(s, sub, i)
    {
      if i == 0 {
        assert s[..|sub|][0] == s[0];
      }
    }
  }

  /** The case-insensitive comparison is for "discover" alone: "DEVICE_INFO"
      in capitals is not a request. */
  lemma DeviceInfoIsCaseSensitive()
    ensures !IsDiscoveryRequest("DEVICE_INFO")
  {
    var m, sub := "DEVICE_INFO", "device_info";
    TrimAround([], m, []);
    assert [] + m + [] == m;
    NotContainedWhenFirstDiffers(m, sub);
  }

  /** A message of white space alone is not a request. */
  lemma BlankIsNoRequest(message: string)
    requires AllSpace(message)
    ensures !IsDiscoveryRequest(message)
  {
    assert TrimStart(message, 0) == |message|;
  }
}

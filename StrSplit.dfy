/** PHP's str_split, which the key derivation uses to cut the PBKDF2 output
    into the encryption key and the authentication key. */
module PhpString {
  import opened Primitives

  /** The concatenation of a list of chunks. */
  function Join(chunks: seq<seq<byte>>): seq<byte>
  {
    if chunks == [] then [] else chunks[0] + Join(chunks[1..])
  }

  /** str_split(s, n): consecutive chunks of n bytes, the last one possibly
      shorter. PHP refuses n < 1, hence the precondition. The empty string
      gives no chunk (PHP 8.2 and later). */
  function StrSplit(s: seq<byte>, n: nat): (chunks: seq<seq<byte>>)
    requires n > 0
    ensures Join(chunks) == s
    ensures forall i :: 0 <= i < |chunks| ==> 0 < |chunks[i]| <= n
    ensures forall i :: 0 <= i < |chunks| - 1 ==> |chunks[i]| == n
    decreases |s|
  {
    if s == [] then []
    else if |s| <= n then [s]
    else
      var rest := StrSplit(s[n..], n);
      assert ([s[..n]] + rest)[1..] == rest;
      [s[..n]] + rest
  }

  /** Splitting 2n bytes into n-byte chunks gives exactly the two halves. */
  lemma {:induction false} StrSplitHalves(s: seq<byte>, n: nat)
    requires n > 0 && |s| == 2 * n
    ensures StrSplit(s, n) == [s[..n], s[n..]]
  {
    var rest := StrSplit(s[n..], n);
    assert rest == [s[n..]];
  }
}

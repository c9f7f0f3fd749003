/**
 What it takes for a transfer to be believed, read off the characters of the target's output: its
 checksum line must show the digest, in either case of letter.
 */
module TransferVerdict {
  import opened Bytes
  import opened Options
  import opened Base64
  import opened Transfer

  /** A character of the output stands for one of the digest: capitals for their small letters. */
  predicate StandsFor(c: char, d: char)
  {
    if 'A' <= c <= 'Z' then d as int == c as int + 32 else d == c
  }

  /** The digest can be read off the output from this place on. */
  ghost predicate ShownAt(output: string, digest: string, i: nat) {
    i + |digest| <= |output| && forall j :: 0 <= j < |digest| ==> StandsFor(output[i + j], digest[j])
  }

  ghost predicate Shown(output: string, digest: string) {
    exists i: nat :: ShownAt(output, digest, i)
  }

  lemma AgreesIsShown(output: string, digest: string)
    ensures Agrees(output, digest) <==> Shown(output, digest)
  {
    var low := Lower(output);
    if Agrees(output, digest) {
      var i :| 0 <= i <= |low| && digest <= low[i..];
      forall j | 0 <= j < |digest| ensures StandsFor(output[i + j], digest[j]) {
        assert low[i..][j] == digest[j];
      }
      assert ShownAt(output, digest, i);
    }
    if i: nat :| ShownAt(output, digest, i) {
      forall j | 0 <= j < |digest| ensures low[i..][j] == digest[j] {
        assert StandsFor(output[i + j], digest[j]);
      }
      assert digest <= low[i..];
    }
  }

  /** A push counts if and only if the output shows the digest of what was sent. */
  lemma PushAcceptedIff(data: seq<byte>, path: string, maxBytes: nat, digest: Digest, output: string)
    ensures var r := PushPlan(data, path, maxBytes, digest);
            r.Ok? ==>
              && (VerifyPush(r.value, output) == Ok(()) <==> Shown(output, digest(data)))
              && (VerifyPush(r.value, output) == Err(Mismatch) <==> !Shown(output, digest(data)))
  {
    hide Agrees, Shown;
    AgreesIsShown(output, digest(data));
  }

  /** A pull whose text decodes returns it if and only if the output shows its digest. */
  lemma PullAcceptedIff(digest: Digest, output: string, text: string, data: seq<byte>)
    requires Decoded(Spelled(Cleaned(text))) == Some(data)
    ensures FinishPull(digest, output, text) == if Shown(output, digest(data)) then Ok(data) else Err(Mismatch)
  {
    hide Agrees, Shown, Decoded, Spelled, Cleaned;
    AgreesIsShown(output, digest(data));
  }

  /** Whatever text comes before and after the digest, it is shown. */
  lemma DigestAmidText(before: string, digest: string, after: string)
    requires forall c :: c in digest ==> !('A' <= c <= 'Z')
    ensures Shown(before + digest + after, digest)
  {
    var output := before + digest + after;
    forall j | 0 <= j < |digest| ensures StandsFor(output[|before| + j], digest[j]) {
      assert output[|before| + j] == digest[j] && digest[j] in digest;
    }
    assert ShownAt(output, digest, |before|);
  }

  /** Some character of the output stands for this one. */
  ghost predicate HasStandIn(output: string, d: char) {
    exists c :: c in output && StandsFor(c, d)
  }

  /** An output that shows the digest is no shorter, and has each of its characters in some case. */
  lemma ShownIsAllThere(output: string, digest: string)
    requires Shown(output, digest)
    ensures |digest| <= |output| && forall d :: d in digest ==> HasStandIn(output, d)
  {
    var i: nat :| ShownAt(output, digest, i);
    forall d | d in digest ensures HasStandIn(output, d) {
      var j :| 0 <= j < |digest| && digest[j] == d;
      assert StandsFor(output[i + j], d) && output[i + j] in output;
    }
  }
}

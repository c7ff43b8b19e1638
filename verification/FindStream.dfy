// The choice of a feed stream by bit rate: one pass that is meant to find the
// fastest stream not above the request, or else the slowest above it.

module FindStream {

  const TOO_FAST := 100000000    // where best_bitrate starts

  // codec_id, sample_rate, width, height and bit_rate of a codec context.
  datatype Codec = Codec(codecId: int, sampleRate: int, width: int, height: int, bitRate: int)

  predicate Matches(s: Codec, codec: Codec) {
    s.codecId == codec.codecId && s.sampleRate == codec.sampleRate && s.width == codec.width && s.height == codec.height
  }

  // But for its bit rate, such a stream is what is asked for.
  lemma MatchesIff(s: Codec, codec: Codec)
    ensures Matches(s, codec) <==> s.(bitRate := codec.bitRate) == codec
  {
  }

  predicate Candidate(feed: seq<Codec>, codec: Codec, i: int) {
    0 <= i < |feed| && Matches(feed[i], codec)
  }

  // Stream a is at least as good an answer as b.
  predicate AsGood(a: int, b: int, bitRate: int) {
    if a <= bitRate then b > bitRate || b <= a else b > bitRate && a <= b
  }

  // What the comment in the source asks for: -1 only when nothing matches.
  ghost predicate Wanted(feed: seq<Codec>, codec: Codec, bitRate: int, best: int) {
    if best == -1 then forall i :: !Candidate(feed, codec, i)
    else
      && Candidate(feed, codec, best)
      && forall i :: Candidate(feed, codec, i) ==> AsGood(feed[best].bitRate, feed[i].bitRate, bitRate)
  }

  // The wanted stream is the fastest within the request, or the slowest if none is within it.
  lemma WantedIs(feed: seq<Codec>, codec: Codec, bitRate: int, best: int)
    requires Wanted(feed, codec, bitRate, best) && best != -1
    ensures Candidate(feed, codec, best)
    ensures feed[best].bitRate > bitRate ==> forall i :: Candidate(feed, codec, i) ==> bitRate < feed[i].bitRate
    ensures forall i :: Candidate(feed, codec, i) && (feed[i].bitRate <= bitRate <==> feed[best].bitRate <= bitRate) ==>
              if feed[best].bitRate <= bitRate then feed[i].bitRate <= feed[best].bitRate
              else feed[best].bitRate <= feed[i].bitRate
  {
    forall i | Candidate(feed, codec, i)
      ensures AsGood(feed[best].bitRate, feed[i].bitRate, bitRate)
    {
    }
  }

  // A stream the pass can take at all, given where best_bitrate starts.
  predicate Takeable(rate: int, bitRate: int) {
    if bitRate < 100000000 then rate < 100000000 else 100000000 < rate <= bitRate
  }

  // When the pass answers as wanted.
  ghost predicate Answerable(feed: seq<Codec>, codec: Codec, bitRate: int) {
    || (forall i :: !Candidate(feed, codec, i))
    || exists i :: Candidate(feed, codec, i) && Takeable(feed[i].bitRate, bitRate)
  }

  // find_stream_in_feed.  It answers as wanted if and only if nothing matches or some
  // matching stream is one it can take: below 100000000 for a request below that, and
  // strictly above it but within the request otherwise.
  method FindStreamInFeed(feed: seq<Codec>, codec: Codec, bitRate: int) returns (best: int)
    ensures Wanted(feed, codec, bitRate, best) <==> Answerable(feed, codec, bitRate)
    ensures best == -1 || Candidate(feed, codec, best)
    ensures best == -1 <==> forall i :: Candidate(feed, codec, i) ==> !Takeable(feed[i].bitRate, bitRate)
  {
    var bestBitrate := TOO_FAST;
    best := -1;
    var i := 0;
    while i < |feed|
      invariant 0 <= i <= |feed|
      invariant best == -1 ==>
                  && bestBitrate == TOO_FAST
                  && forall k :: Candidate(feed, codec, k) && k < i ==> !Takeable(feed[k].bitRate, bitRate)
      invariant best != -1 ==>
                  && Candidate(feed, codec, best) && best < i
                  && bestBitrate == feed[best].bitRate && Takeable(bestBitrate, bitRate)
                  && forall k :: Candidate(feed, codec, k) && k < i ==> AsGood(bestBitrate, feed[k].bitRate, bitRate)
    {
      if Matches(feed[i], codec) {
        if feed[i].bitRate <= bitRate {
          if bestBitrate > bitRate || feed[i].bitRate > bestBitrate {
            bestBitrate := feed[i].bitRate;
            best := i;
          }
        } else {
          if feed[i].bitRate < bestBitrate {
            bestBitrate := feed[i].bitRate;
            best := i;
          }
        }
      }
      i := i + 1;
    }
  }
}

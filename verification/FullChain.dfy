/** Generator, encoder and concurrent pipeline together (src/simulator.cpp, include/mdfh/pipeline.hpp). */
module FullChain {
  import opened Protocol
  import opened FlatBook
  import opened BookBuilding
  import opened Parsing
  import opened FeedHandling
  import opened FeedLaws
  import opened Simulators
  import opened SimulatorLaws
  import opened EndToEnd
  import P = Pipelines

  /** For every generator run, every ring configuration and every interleaving of the pipeline's threads over
      the encoded messages: when all three have ended, each symbol's book holds exactly the generator's
      live orders and is not crossed, there are no other books, and nothing was rejected, dropped or
      malformed. */
  lemma GeneratorThroughPipeline(c: SimConfig, draws: seq<Draws>, config: P.Config, steps: seq<P.Step>, p: P.Pipe)
    requires GoodSim(c) && P.GoodConfig(config)
    ensures c.numMessages < TWO64 && CanDraw(c)
    ensures var (st, ms) := Generated(c, draws);
      P.Reaches(config, Bytes(ms), steps, p) && P.Ended(p) ==>
        var f := p.tally.feed;
        && p.tally.parsed == f.forwarded == |ms| && f.dropped == 0 && p.tally.malformed == 0
        && f.down.stats.rejected == 0 && KnownSymbols(c, f.down.books)
        && forall i :: 0 <= i < c.numSymbols ==>
             Mirrors(st.symbols[i].orders, BookOf(f.down.books, i)) && !Crossed(BookOf(f.down.books, i))
  {
    hide GoodSim, Generated, Bytes, Mirrors, Crossed, P.Reaches, P.GoodConfig, Consumed, Parse, KnownSymbols;
    RunMirrors(c, draws);
    var (st, ms) := Generated(c, draws);
    var buf := Bytes(ms);
    if P.Reaches(config, buf, steps, p) && P.Ended(p) {
      P.EveryInterleavingIsConsume(config, buf, steps, p);
      OneChunk(buf);
      GeneratorToBooks(c, draws, [buf]);
      StreamRoundTrip(ms);
      OnePass(ms);
    }
  }

  lemma OneChunk(buf: seq<byte>)
    ensures Concat([buf]) == buf && Streamed(FRESH_FEED, [buf]) == Consumed(FRESH_FEED, buf).0
  {
    hide Consumed;
    assert [buf][1..] == [];
    assert Concat([buf][1..]) == [] && buf + [] == buf;
    assert Streamed(Consumed(FRESH_FEED, buf).0, [buf][1..]) == Consumed(FRESH_FEED, buf).0;
  }

  lemma OnePass(ms: seq<Message>)
    requires AllFit(ms)
    ensures var r := Consumed(FRESH_FEED, Bytes(ms)).1; r.messages == |ms| && r.malformed == 0
  {
    hide Parse, DeliveredAll, Bytes, Fits, EventsIn, MalformedIn;
    StreamRoundTrip(ms);
    assert [] + Bytes(ms) == Bytes(ms);
    AllEvents(ms);
  }

  lemma {:induction false} AllEvents(ms: seq<Message>)
    ensures EventsIn(Events(ms)) == |ms| && MalformedIn(Events(ms)) == 0
  {
    if ms == [] {
    } else {
      AllEvents(ms[1..]);
      assert Events(ms)[1..] == Events(ms[1..]);
    }
  }
}

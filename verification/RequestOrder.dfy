/** The order the pool's sets keep sentences of one length in: by request if they belong to different ones. */
module RequestOrder {
  import Batches

  /** A sentence as its request's handle and its position there. */
  datatype Reference = Reference(request: nat, index: nat)

  /** The requests there are: each one's sequence id and number of segments. */
  datatype Requests = Requests(ids: seq<nat>, segments: seq<nat>) {
    predicate Valid() { |ids| == |segments| }

    predicate Has(a: Reference)
      requires Valid()
    {
      a.request < |ids| && a.index < segments[a.request]
    }

    predicate Less(a: Reference, b: Reference)
      requires Valid() && Has(a) && Has(b)
    {
      if a.request == b.request then a.index < b.index else ids[a.request] < ids[b.request]
    }

    predicate Tied(a: Reference, b: Reference)
      requires Valid() && Has(a) && Has(b)
    {
      !Less(a, b) && !Less(b, a)
    }

    /** What an ordered set asks of its comparison. */
    ghost predicate StrictWeakOrder()
      requires Valid()
    {
      && (forall a, b, c :: Has(a) && Has(b) && Has(c) && Less(a, b) && Less(b, c) ==> Less(a, c))
      && (forall a, b, c :: Has(a) && Has(b) && Has(c) && Tied(a, b) && Tied(b, c) ==> Tied(a, c))
    }

    /** An ordered set drops what is tied with something it holds. */
    ghost predicate KeepsAll()
      requires Valid()
    {
      forall a, b :: Has(a) && Has(b) && Tied(a, b) ==> a == b
    }

    /** Two requests with one id. */
    predicate Clash(h: nat, k: nat)
      requires Valid()
    {
      h < |ids| && k < |ids| && h != k && ids[h] == ids[k] && segments[h] > 0 && segments[k] > 0
    }
  }

  /** The comparison is a strict weak order exactly if no request of two or more segments shares its id. */
  lemma StrictWeakIff(r: Requests)
    requires r.Valid()
    ensures r.StrictWeakOrder() <==> forall h: nat, k: nat :: r.Clash(h, k) ==> r.segments[h] == r.segments[k] == 1
  {
    if r.StrictWeakOrder() {
      forall h: nat, k: nat | r.Clash(h, k) ensures r.segments[h] == 1 {
        var a, b, c := Reference(h, 0), Reference(k, 0), Reference(h, 1);
        assert r.Has(a) && r.Has(b) && r.Tied(a, b);
        assert r.segments[h] > 1 ==> r.Has(c) && r.Tied(b, c) && !r.Tied(a, c);
      }
      forall h: nat, k: nat | r.Clash(h, k) ensures r.segments[h] == r.segments[k] == 1 {
        assert r.Clash(k, h);
      }
    }
    if forall h: nat, k: nat :: r.Clash(h, k) ==> r.segments[h] == r.segments[k] == 1 {
      forall a, b, c | r.Has(a) && r.Has(b) && r.Has(c)
        ensures r.Less(a, b) && r.Less(b, c) ==> r.Less(a, c)
        ensures r.Tied(a, b) && r.Tied(b, c) ==> r.Tied(a, c)
      {
        assert r.Clash(a.request, b.request) || !r.Clash(a.request, b.request);
        assert r.Clash(b.request, c.request) || !r.Clash(b.request, c.request);
        assert r.Clash(a.request, c.request) || !r.Clash(a.request, c.request);
      }
    }
  }

  /** No sentence is dropped exactly if no two requests share an id. */
  lemma KeepsAllIff(r: Requests)
    requires r.Valid()
    ensures r.KeepsAll() <==> forall h: nat, k: nat :: !r.Clash(h, k)
  {
    if r.KeepsAll() {
      forall h: nat, k: nat ensures !r.Clash(h, k) {
        assert r.Clash(h, k) ==>
               r.Has(Reference(h, 0)) && r.Has(Reference(k, 0)) && r.Tied(Reference(h, 0), Reference(k, 0));
      }
    }
    if forall h: nat, k: nat :: !r.Clash(h, k) {
      forall a, b | r.Has(a) && r.Has(b) && r.Tied(a, b) ensures a == b {
        assert !r.Clash(a.request, b.request);
      }
    }
  }

  /** With distinct ids it is the order the batches are specified by. */
  lemma AgreesWithBatches(r: Requests, a: Reference, b: Reference, length: nat)
    requires r.Valid() && r.Has(a) && r.Has(b) && forall h: nat, k: nat :: !r.Clash(h, k)
    ensures r.Less(a, b) <==> Batches.Before(Batches.Sentence(length, r.ids[a.request], a.index),
                                             Batches.Sentence(length, r.ids[b.request], b.index))
  {
    assert !r.Clash(a.request, b.request);
  }
}

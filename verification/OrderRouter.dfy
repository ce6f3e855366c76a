/** The mutable order router in front of the paper broker. */
module OrderRouter {
  import opened Base
  import opened Broker
  import PaperBroker
  import Routing

  class Router {
    const venue: PaperBroker.Venue
    var requests: map<Coid, Request>
    var acks: map<Coid, Ack>
    var calls: nat

    ghost function View(): Routing.Router
      reads this
    {
      Routing.Router(requests, acks, calls)
    }

    constructor (venue: PaperBroker.Venue)
      ensures this.venue == venue && View() == Routing.EMPTY
    {
      this.venue := venue;
      requests, acks, calls := map[], map[], 0;
    }

    /** `link` is what the transport does to this call and what the venue answers when asked about a lost one. */
    method Submit(req: Request, link: Routing.Link) returns (ack: Ack)
      requires ValidEnv(venue.env)
      modifies this, venue
      ensures (View(), venue.View(), ack) == Routing.Route(old(View()), old(venue.View()), venue.env, req, link)
    {
      hide Broker.Submit;
      if req.coid in requests {
        ack := if requests[req.coid] == req && req.coid in acks then acks[req.coid]
               else Ack(req.coid, Rejected, Some(DuplicateClientId));
        return;
      }
      calls := calls + 1;
      var got := None;
      if link.Delivered? {
        var a := venue.Submit(req);
        got := Some(a);
      } else {
        if link.AnswerLost? {
          var _ := venue.Submit(req);
        }
        got := link.found;
      }
      if got.None? {
        return Ack(req.coid, Rejected, Some(VenueError));
      }
      requests := requests[req.coid := req];
      acks := acks[req.coid := got.value];
      ack := got.value;
    }
  }
}

/** The Mailman list server as the service sees it through `mailman.Mailman`:
    the subscribers of every list. Each method is one admin-form request; a
    refused request or an error status raises. Removing an address that is
    not subscribed succeeds and changes nothing. */
module Mailman {
  import opened Wrappers
  import opened Calls

  class Mailman {
    const wire: Wire
    /** The subscribed addresses of each list, by list name. */
    var lists: map<string, set<string>>

    constructor (wire: Wire, lists: map<string, set<string>>)
      ensures this.wire == wire && this.lists == lists
    {
      this.wire := wire;
      this.lists := lists;
    }

    /** `add_member` */
    method AddMember(list: string, email: string) returns (r: Result<(), Fault>)
      modifies this, wire
      ensures wire.sent == old(wire.sent) + [Subscribe(list, email)]
      ensures r.Ok? <==> Subscribe(list, email) !in wire.refusing && list in old(lists)
      ensures r.Ok? ==> lists == old(lists)[list := old(lists)[list] + {email}]
      ensures r.Err? ==> lists == old(lists) && r.error in {Unreachable, NotFound}
    {
      var refused := wire.Send(Subscribe(list, email));
      if refused {
        return Err(Unreachable);
      }
      if list !in lists {
        return Err(NotFound);
      }
      lists := lists[list := lists[list] + {email}];
      return Ok(());
    }

    /** `remove_member` */
    method RemoveMember(list: string, email: string) returns (r: Result<(), Fault>)
      modifies this, wire
      ensures wire.sent == old(wire.sent) + [Unsubscribe(list, email)]
      ensures r.Ok? <==> Unsubscribe(list, email) !in wire.refusing && list in old(lists)
      ensures r.Ok? ==> lists == old(lists)[list := old(lists)[list] - {email}]
      ensures r.Err? ==> lists == old(lists) && r.error in {Unreachable, NotFound}
    {
      var refused := wire.Send(Unsubscribe(list, email));
      if refused {
        return Err(Unreachable);
      }
      if list !in lists {
        return Err(NotFound);
      }
      lists := lists[list := lists[list] - {email}];
      return Ok(());
    }
  }
}

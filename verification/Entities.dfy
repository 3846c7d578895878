// The objects that the server's functions share: user_t and im_client_t.
module Entities {
  import opened Basics
  import opened Sessions

  class User {
    const username: Name
    const password: Name
    const rank: nat   // how many users were added before this one; names the user in responses
    var lastLoggedIn: int
    var lastActive: int
    var lastBlocked: int
    var attempts: int
    var client: Client?
    var blocked: seq<User>
    var buffer: seq<Response>

    constructor (username: Name, password: Name, rank: nat)
      ensures this.username == username && this.password == password && this.rank == rank
      ensures lastLoggedIn == lastActive == lastBlocked == -1 && attempts == 0
      ensures client == null && blocked == [] && buffer == []
    {
      this.username, this.password, this.rank := username, password, rank;
      lastLoggedIn, lastActive, lastBlocked, attempts := -1, -1, -1, 0;
      client, blocked, buffer := null, [], [];
    }
  }

  class Client {
    const fd: int
    ghost const slot: nat   // its index in clients[]
    ghost var open: bool
    var user: User?
    var out: seq<Response>
    var chunkIds: seq<uint32>
    ghost var sent: seq<Response>   // what the kernel has taken

    constructor (fd: int, ghost slot: nat)
      ensures this.fd == fd && this.slot == slot && open
      ensures user == null && out == [] && chunkIds == [] && sent == []
    {
      this.fd, this.slot, this.open := fd, slot, true;
      user, out, chunkIds, sent := null, [], [], [];
    }
  }
}

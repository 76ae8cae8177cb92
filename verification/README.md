# Perlink in Dafny

Perlink links two hosts behind an untrusted network. A server authenticates enciphered
registrations, keeps a table of the registered peers and sends every provider and every consumer
the address and keys of the other; the two then exchange a ping and a pong directly. This project
models that system down to the bytes on the wire and proves what it keeps over whole runs. Check
it with `dafny verify dfyconfig.toml`.

Classes and methods follow the C++ code step by step (`Peer`, `Server`, `Database`, `Udp`,
`Cipher`, `Pairing`, `Counting`, `Streams`). Each method is proved equal to a function of the old
state, and the theorems are about those functions and their runs.

| files | what they hold |
|---|---|
| `Words.dfy`, `Cipher.dfy`, `KnownAnswer.dfy`, `Capsule.dfy` | 32-bit words, XTEA and `ed`, the published test vector, the 112-byte capsule `SrvCap` |
| `Address.dfy`, `Streams.dfy`, `Udp.dfy` | socket addresses and `std::set` of them, the partial-send loops, the enciphering socket |
| `Access.dfy`, `Secrets.dfy`, `Tables.dfy`, `Database.dfy` | `authorize` and `deny`, what a secret spells, the table `pers`, the class over them |
| `PeerModel.dfy`, `Peer.dfy`, `PeerRuns.dfy`, `PeerSends.dfy`, `PeerTurns.dfy` | a peer: its functions, its class, its runs, what it sends the server, what each part of a turn does |
| `Announce.dfy`, `ServerModel.dfy`, `Server.dfy`, `ServerRuns.dfy`, `ServerTurns.dfy`, `ServerDenials.dfy` | the server: who is told of whom, its functions, its class, its runs, what each part of a turn does, who is denied |
| `Protocol.dfy`, `KeyChain.dfy`, `Linking.dfy`, `Reachability.dfy` | the whole system: why links exist, which keys a link passes through, how a link comes about, which links there can be |
| `Pairing.dfy`, `Counting.dfy` | the pairing table `peers` and the counted pointer `CntPtr` |

## Main results

- `Protocol.LinkHasHistory`: the network loses, repeats and reorders at will. If a peer has a link
  to another, both registered, they have opposite types, the server named the other one to it,
  then it pinged, then the other one answered, in that order.
- `Reachability.LinkExactlyWhenOpposed`: some run, under a clock that starts anywhere and never goes
  back, gives a peer a link to another exactly when the two are of opposite types and their rows
  hash to different keys of the table.
- `Reachability.LinkByIds`: of two peers with different keys of the table, some run links one to the
  other exactly when exactly one of the ids starts with `p`.
- `Linking.AnnouncementIntroduces` and `Linking.IntroductionLinks`: the converse. An announcing turn
  of the server introduces all opposite peers of its table to each other, and after an
  introduction three deliveries make the link.
- `KeyChain.LinkThroughKeys`: the three keys a link passes through, for peers with any keys.
- `Protocol.ServerSendsWholeCapsules`: the assertion in `_received` never fails.
- `Announce.NoteCounts`, `Announce.AnnouncementSize`, `ServerRuns.AnnouncementInRun`: exactly what
  the doubly nested loop of `_ping_pers` sends.
- `ServerRuns.RegistrationAnnounced`, `ServerRuns.OnlyFailuresAreFiltered`: a stored registration is
  announced in its own turn; the duplicate filter drops only repeats of a failed store.
- `PeerTurns.RegistersAgain`: in every run an unlinked peer registers exactly in the turns that come
  11 seconds or more after its last registration or acknowledgement.
- `ServerDenials.DenialsInRun`: in every run of the server an address is rejected exactly from its
  514th refused packet on.
- `PeerSends.RegistrationsSent`, `PeerRuns.RunFine`, `PeerRuns.ShortDeliveredAtMostOnce`: the
  registration timer, the two reachable states, and delivery of short datagrams.
- `Cipher.DecipherUndoesEncipher`, `KnownAnswer.XteaVector`, `Cipher.EdRoundTrip`: the cipher inverts
  for any number of rounds, is XTEA, and `ed` inverts for any buffer.
- `Secrets.KeysAreTheWords`, `Secrets.ClientAcceptedWithWords`: a secret spells its keys, and a
  listed client is always let in under them.
- `Tables.RunRefinesMap`, `Tables.RunKeepsRefOrder`, `Counting.RunKeepsInv`,
  `Pairing.ReachableSidesApart`, `Pairing.DuplicateCheckNeedsUntyped`, `Address.Sip2ipUndoesIp2str`,
  `Streams.SendAllTerminates`: the structures below the protocol.

## Where the code does not do what one might expect

- `!=` on addresses is not the negation of `==` when exactly one port is 0 and the ranges agree
  (`Address.NeNegatesEq`). `<` is no weak order across a port 0 (`Address.WildcardBreaksWeakOrder`).
- A received address has mask 0, so only ports are compared. A short datagram from port 0 is shown
  once for every linked peer (`PeerRuns.ShortDeliveredAtMostOnce`); `Reachability.PortZeroReachesBoth`
  is a run in which that is twice.
- `ipp::operator=` leaves the type out while `==` compares it. The duplicate check of `peers::add`
  therefore catches only endpoints of type 0 (`Pairing.AddedToHalfFilled`): it turns every duplicate
  away exactly when both types of the client are 0 (`Pairing.DuplicateCheckNeedsUntyped`). A typed
  client that comes twice is paired with itself (`Pairing.TypedClientPairsWithItself`,
  `Pairing.TypedSecondEndpointIsMissed`).
- `detach` is safe exactly for a handle that shares its counter with no other
  (`Counting.DetachedKeepsInv`).
- The reference numbers of a name stop ascending exactly when a row is inserted for a known name
  although the table could not be read (`Tables.RunKeepsRefOrder`).
- `_data_in` drops the first byte of what it prints (`Peer.APeer.DataIn`).
- A secret fixes the keys from 25 hexadecimal digits on, not 32 (`Access.FullSecretFixesKeys`).
- A peer would send a ping to the server if a capsule named the server's address; the server never
  does that (`PeerSends.RegistrationsSent`, `Protocol.ServerNeverNamesItself`).
- The states after `SRV_UNREGISTER` in `_srv_process` are never reached (`PeerRuns.RunFine`).
- The usage text of the repository starts providers and consumers "in group abc"; `get_pers` does
  not look at the group, and peers of opposite types are introduced whatever their groups.
- The comment above `sendall` says it returns 0 for success; it returns the number of bytes sent.

## Model

| member | source | states |
|---|---|---|
| Protocol.LinkHasHistory | a_peer.cpp:204-287 | in every run under loss, repetition and reordering a link of a to b means: opposite types and different K, both registered, then SRV_SET_PEER to a naming b, then PER_PING a to b, then PER_PONG b to a |
| Protocol.RunKeepsInv | u_server.cpp:134-215 | in every run each datagram ever sent is justified by earlier ones, each row of the server stands for a registered peer with its type and key, each link for a pong |
| Protocol.FirstRowListsAll | sqliter.cpp:78-92 | with the rows the server starts from, the assumption on its list of secrets is met for every peer |
| Protocol.PeerTurnKeepsInv | a_peer.cpp:81-130 | any turn of a peer keeps that invariant, whatever of the log arrives |
| Protocol.ServerTurnKeepsInv | u_server.cpp:53-93 | any turn of the server keeps that invariant |
| Protocol.CapsuleJustified | a_peer.cpp:204-239 | a peer pings only whom the server named to it |
| Protocol.PongJustified | a_peer.cpp:254-258 | a pong goes out only to a peer whose ping arrived |
| Protocol.LinkJustified | a_peer.cpp:260-263 | every address in `_pers` is a peer that sent a pong |
| Protocol.RegistrationRead | u_server.cpp:166-171 | the server reads the registration of a listed peer exactly as written and obtains the peer's key, whatever was in its key buffer before |
| Protocol.StoreJustified | u_server.cpp:113-131 | storing that registration adds or refreshes a row for the sender, and the answer is no introduction |
| Protocol.AnnouncedJustified | u_server.cpp:134-164 | every datagram of an announcement goes to a registered peer, and a SRV_SET_PEER names a registered peer of the opposite type |
| Protocol.ServerSendsWholeCapsules | a_peer.cpp:180-192 | in every run `bytes==0` holds at the assertion of `_received` |
| Protocol.ServerByPort | sock.h:185-196 | a peer takes a datagram for the server's exactly by its port |
| Protocol.StepKeepsInv | a_peer.cpp:55-132 | any step of the system keeps that invariant |
| Reachability.LinkExactlyWhenOpposed | u_server.cpp:134-164 | some run, whose clock starts at any time and never goes back and in which no row expires before 30 seconds, links a to b exactly when they are peers of opposite types whose rows have different K |
| Reachability.LinkByIds | a_peer.cpp:26 | of two peers whose rows have different K, some run links one to the other exactly when exactly one of the two ids starts with `p` |
| Reachability.StoredType | sqliter.cpp:195 | T of a stored row is 1 exactly when the id of its peer starts with `p`, else 0 |
| Reachability.LinkingRun | a_peer.cpp:55-132 | for such peers, at any time from the start on (and after REG_TICK), seven steps make the link: both register, the server takes both in, then the introduction, the ping and the pong are delivered |
| Reachability.RegistrationStored | u_server.cpp:113-131 | at any time, whether or not the table could be read, the server turns a registration that the filter lets through and whose K is new into a row of that peer, and announces in the same turn |
| Reachability.PortZeroReachesBoth | a_peer.cpp:142-151 | after pongs from two ports a peer has two links, and a short datagram from port 0 is delivered for both |
| KeyChain.IntroductionRead | u_server.cpp:147-161 | the told peer, with the keys of its row, reads a SRV_SET_PEER with the address and keys of the other |
| KeyChain.PingRead | a_peer.cpp:281-287 | a peer told of another sends it one ping, which whoever holds the carried keys reads as sent, whatever the sender's own keys |
| KeyChain.PongRead | a_peer.cpp:254-258 | a ping is answered with its own capsule as a pong under the answering peer's key; a key reads that pong exactly when it enciphers it as that key does |
| KeyChain.Linked | a_peer.cpp:260-265 | a readable pong adds its source to `_pers` and makes the peer PER_LINKED |
| KeyChain.LinkThroughKeys | a_peer.cpp:241-287 | for peers with any keys: told, the first pings the second, which recovers exactly the capsule as a ping; when the keys agree the first recovers the pong and has the link |
| Linking.AnnouncementIntroduces | u_server.cpp:147-163 | an announcing turn introduces any two peers of opposite types in the table to each other |
| Linking.IntroductionLinks | a_peer.cpp:204-287 | in every run, once the server introduced b to a and both run, delivering the introduction, the ping and the pong is possible and inserts b into `_pers` of a, where an entry is then == b |
| Announce.NoteCounts | u_server.cpp:139-163 | every row is pinged once; of two rows each is told of the other exactly twice when their types differ and never otherwise |
| Announce.AnnouncementSize | u_server.cpp:139-163 | P providers and C consumers give P+C pings and 4*P*C capsules naming a peer |
| Announce.RenderedTells | u_server.cpp:141-160 | each datagram goes to its row under that row's keys, with the right verb, and a SRV_SET_PEER carries the named row's address and keys |
| Announce.PairCounts | u_server.cpp:150-161 | the inner step tells both rows of each other once, or neither |
| Announce.OrderOfTwo | u_server.cpp:139-163 | the order of the six datagrams for two rows of opposite types |
| Announce.AnnouncedElsewhere | u_server.cpp:141-160 | the bytes no note writes go out in every datagram as the announcement found them, and stay in the shared capsule, whose verb ends as SRV_SET_PEER |
| ServerRuns.AnnouncementInRun | u_server.cpp:134-164 | in every run the datagrams of an announcement are exactly the notes, P+C+4*P*C of them, each as its note says |
| ServerRuns.RegistrationAnnounced | u_server.cpp:70-92 | an accepted registration whose store succeeds is acknowledged and in the same turn announced to and about every opposite row; then `_prev` is zero and `_dirty` false |
| ServerRuns.EveryRowToldBothWays | u_server.cpp:147-162 | a row and every opposite row are told of each other, twice each |
| ServerRuns.TurnEnds | u_server.cpp:85-92 | at the end of every turn `_dirty` is false; `_prev` is zero after an announcement, else what it was or the capsule whose store just failed |
| ServerRuns.FilterNeedsFailure | u_server.cpp:113-131 | in every run a nonzero `_prev` is a capsule whose store failed, with nothing announced since |
| ServerRuns.OnlyFailuresAreFiltered | u_server.cpp:115-119 | in every run the filter drops a registration only as the repeat of one whose store failed, with nothing announced since |
| ServerRuns.RunTyped | u_server.cpp:195 | in every run the types in the table are 0 and 1 |
| ServerTurns.ShortOverwrites | u_server.cpp:72-73 | a short packet overwrites the front of the shared capsule and does nothing else |
| ServerTurns.RefusedStays | u_server.cpp:75-78 | a refused packet stays in the shared capsule as it came, its sender is denied, nothing is sent |
| ServerTurns.AihRefreshes | u_server.cpp:187-190 | under PER_AIH exactly the rows of the sender's address and port get a new time, and nothing is sent |
| ServerTurns.UnregisterAnswered | u_server.cpp:202-210 | under SRV_UNREGISTER the capsule goes back in clear as SRV_UNREGISTERED and the rows the statement hits go |
| ServerTurns.OtherVerbsDoNothing | u_server.cpp:211-214 | any other verb changes and sends nothing |
| ServerTurns.RefreshAnswered | u_server.cpp:113-131 | a known peer that registers again is acknowledged and announced when the table could be read and passed over when not; only its row gets a new time |
| ServerTurns.NewcomerAnswered | u_server.cpp:113-131 | a new peer is acknowledged and announced always; every field of its row |
| ServerTurns.RepeatDropped | u_server.cpp:115-119 | a repeat of what the filter remembers changes and sends nothing |
| ServerTurns.TurnAnnounces | u_server.cpp:85-92 | a turn announces exactly when 16 seconds have passed since the last time or something was stored, and then exactly the rows past the limit stay |
| ServerTurns.AnnouncementsInRun | u_server.cpp:85-92 | in every run announcements come 16 seconds after the last ones and at once after a store, and not otherwise |
| Server.UServer.StorePeer | u_server.cpp:113-131 | in place: the filter, the store, the answer under the client's keys |
| Server.UServer.Process | u_server.cpp:183-215 | in place: dispatch on the verb |
| Server.UServer.PingPers | u_server.cpp:134-164 | the nested loop with its shared capsule sends exactly the announcement and leaves its last capsule behind |
| Server.UServer.IntroduceRow | u_server.cpp:147-162 | the inner loop for one row |
| Server.UServer.Deny | u_server.cpp:174-180 | a refused packet counts for its address and for nothing else |
| Server.UServer.Handle | u_server.cpp:70-84 | receive into the shared capsule, ask `authorize`, deny or process |
| Server.UServer.Turn | u_server.cpp:53-93 | one turn of the loop |
| Server.UServer.MainLoop | u_server.cpp:38-95 | any number of turns is the run the theorems speak of |
| Peer.APeer.constructor | a_peer.cpp:21-29 | a new peer is in the start state of the runs |
| Peer.APeer.SrvProcess | a_peer.cpp:204-239 | in place: dispatch on the server's verb |
| Peer.APeer.DoPeering | a_peer.cpp:281-287 | the capsule goes on to the peer it names under the keys it carries |
| Peer.APeer.PerProcess | a_peer.cpp:241-277 | in place: dispatch on the peer's verb |
| Peer.APeer.EachCapsule | a_peer.cpp:182-191 | the loop over `off` and `bytes` handles the capsules of the datagram one by one |
| Peer.APeer.DoReceived | a_peer.cpp:178-202 | a server datagram is a row of capsules, any other one capsule |
| Peer.APeer.DataIn | a_peer.cpp:289-295 | what is printed is the C string from the second byte on, cut at the datagram's end or its first zero |
| Peer.APeer.RecUdp | a_peer.cpp:134-153 | long datagrams are handled, short ones delivered once per matching peer |
| Peer.APeer.SendToPers | a_peer.cpp:304-312 | every linked peer gets the text in clear |
| Peer.APeer.TimerPart | a_peer.cpp:85-99 | the registration timer |
| Peer.APeer.IamHerePart | a_peer.cpp:101-113 | the server-down branch is never taken |
| Peer.APeer.Turn | a_peer.cpp:81-130 | one turn of the loop |
| Peer.APeer.MainLoop | a_peer.cpp:55-132 | any number of turns is the run the theorems speak of |
| PeerModel.RegistrationBytes | a_peer.cpp:26 | every byte of the registration: 1, the secret from 16 on, at 74 a 1 exactly for an id that starts with `p`, the id from 75 on, zeros elsewhere |
| PeerModel.RegistrationFields | a_peer.cpp:64-66 | verb, secret, type and id read back from the registration are the peer's own; the type is 1 exactly for an id that starts with `p` |
| PeerRuns.RunFine | a_peer.cpp:204-265 | in every run the status is SRV_UNREGISTERED or PER_LINKED and no two entries of `_pers` are == |
| PeerRuns.CapsulesFine | a_peer.cpp:182-191 | server capsules change neither the links nor what was heard, and `_regtime` only to the clock |
| PeerRuns.ShortDeliveredAtMostOnce | a_peer.cpp:142-151 | after any run a short datagram is delivered at most once, exactly unless it comes from port 0 while two peers are linked |
| PeerRuns.ChatReachesEachLinkOnce | a_peer.cpp:304-312 | after any run a typed line goes to every linked peer once, as typed, and to no port twice |
| PeerRuns.RegisterTurnSends | a_peer.cpp:85-97 | when the timer fires the registration goes to the server before anything else |
| PeerTurns.TimerExactly | a_peer.cpp:85-99 | a running peer sends its registration, before anything else, exactly when it has no link and 11 seconds have passed since `_regtime`; a linked peer sends none |
| PeerTurns.TurnRegtimeExactly | a_peer.cpp:204-214 | after a turn `_regtime` is the clock of its acknowledgement, else the time of its registration, else as before |
| PeerTurns.RegtimeInRun | a_peer.cpp:85-99 | in every run `_regtime` is the time of the last registration or acknowledgement |
| PeerTurns.RegistersAgain | a_peer.cpp:85-99 | in every run a peer without a link registers in exactly the turns that come 11 seconds or more after that |
| PeerTurns.ServerVerbs | a_peer.cpp:206-237 | what each verb of the server does, by its number |
| PeerTurns.EveryIntroductionPinged | a_peer.cpp:184-191 | every capsule of a server datagram that introduces somebody makes a ping |
| PeerTurns.DataHeard | a_peer.cpp:249-252 | a whole capsule that starts with a colon is printed from its second byte on and makes a link |
| PeerTurns.OtherPeerVerbs | a_peer.cpp:267-275 | any verb of a peer but text, ping and pong sends nothing; 7 sets `_pingtime`, the others change nothing |
| PeerTurns.NoServerStops | a_peer.cpp:93-97 | a send that finds no server ends the peer in that turn, before it receives anything |
| PeerTurns.TickedAfter16 | a_peer.cpp:101-113 | every 16 seconds the two clocks are set, and nothing else comes of it |
| PeerTurns.LineGoesOut | a_peer.cpp:114-129 | in a turn that ends linked a finished line goes to each linked peer as typed, in order; otherwise to nobody |
| PeerTurns.TypedIsHeard | a_peer.cpp:142-151 | a short line from a linked peer is printed once, without the colon it starts with |
| PeerTurns.RunForgetsNothing | a_peer.cpp:106-112 | links and texts are never lost in a run |
| PeerRuns.RegistrationsSpaced | a_peer.cpp:85-99 | the timer fires at least 11 seconds apart and `_regtime` never falls behind the last time |
| PeerRuns.RegistrationBound | a_peer.cpp:85-99 | the i-th and the j-th firing of the timer are at least 11*(j-i) seconds apart, and a run of T seconds has at most T/11+1 |
| PeerSends.TurnToServer | a_peer.cpp:81-130 | a turn sends the server one registration when the timer fires and none otherwise, and one ping for each capsule that names the server |
| PeerSends.RunToServer | a_peer.cpp:81-130 | in every run the datagrams to the server number the firings of the timer plus the capsules that named the server |
| PeerSends.RegistrationsSent | a_peer.cpp:85-99 | in every run the datagrams to the server are one registration for each firing exactly when no capsule named the server; then a run of T seconds sends at most T/11+1 |
| Protocol.ServerNeverNamesItself | u_server.cpp:147-161 | in every run of the system no capsule names the server, so that condition is met |
| Access.FullSecretFixesKeys | per_id.h:162-165 | the four keys do not depend on what was in the buffer exactly when the secret starts with 25 hexadecimal digits |
| Secrets.HexDigits | per_id.h:164 | the digits are 0 to 9 and a to f in either case, with their values, and nothing else |
| Secrets.KeysAreTheWords | per_id.h:162-165 | a secret made of up to four words in eight hexadecimal digits each, in any mix of cases, the last one possibly shorter, sets as many keys to those words and leaves the others, whatever follows and whatever the buffer held |
| Secrets.MeikeyKeys | per_id.cpp:5 | the keys of the secret the repository ships |
| Secrets.ClientAcceptedWithWords | sqliter.cpp:264-301 | a client whose secret spells four words and is listed for its address or for all is let in, and the server ends up with those words as keys |
| Access.FirstRowDecides | sqliter.cpp:277-297 | the first accepting row gives the plaintext and the keys |
| Access.AuthorizedIffSomeRow | sqliter.cpp:264-301 | a packet is accepted exactly when some visible row deciphers it to its own secret; a refused one stays ciphertext |
| Access.OnlySelectedRowsMatter | sqliter.cpp:272-297 | rows for other addresses change neither the verdict nor the keys left in the buffer |
| Access.AcceptedMeans | sqliter.cpp:272-297 | what is let in names the secret of a row for its address or for all and was deciphered under the keys handed on, which are that secret's |
| Access.RefusedMeans | sqliter.cpp:272-297 | with full secrets a packet is refused exactly when no such row has a secret that the packet names under that secret's own keys |
| Access.ClientAccepted | sqliter.cpp:264-301 | a packet enciphered under a listed secret that fixes its keys is always accepted, and if no earlier row takes it the server gets exactly the client's plaintext and keys |
| Access.DeniedCounts | sqliter.cpp:303-355 | a denial adds one to its own address and nothing to any other |
| Access.DenialsAreCounted | sqliter.cpp:303-355 | under any interleaving the count of an address is its number of denials, and the answer is a rejection exactly from the 514th on |
| ServerDenials.ReceivedDenials | u_server.cpp:70-84 | a turn denies the sender of a whole packet that no visible row accepts, and nobody else |
| ServerDenials.DenialsInRun | u_server.cpp:70-84 | in every run the count of an address is the number of its whole packets that no visible row accepted, and the next one is rejected exactly from the 514th on |
| Tables.StoredKeepsKeyed | sqliter.cpp:189-222 | a store keeps K unique and Ids ascending |
| Tables.StoredKeepsRefOrder | sqliter.cpp:140-177 | R keeps ascending within each name exactly when the store refreshed a row, could read the table or met a new name |
| Tables.LastRefIsGreatest | sqliter.cpp:147-168 | what the cursor leaves in `refs` is the greatest R of that name |
| Tables.LastRefIsLast | sqliter.cpp:147-168 | what the cursor leaves in `refs` is R of the last row of that name, and 0 when there is none |
| Tables.StoredRefinesMap | sqliter.cpp:189-222 | a store changes D under its own K only, or adds one key |
| Tables.SeenRefinesMap | sqliter.cpp:358-380 | a refresh changes D of the rows of that address and port only |
| Tables.YoungerRows | sqliter.cpp:61-74 | an expiry leaves exactly the rows younger than the limit |
| Tables.YoungerRefinesMap | sqliter.cpp:61-74 | an expiry removes exactly the old keys |
| Tables.YoungerKeepsRefOrder | sqliter.cpp:61-74 | deletions keep R ascending within each name |
| Tables.RunRefinesMap | sqliter.cpp:125-229 | after any sequence of stores, whether or not they could read the table, refreshes and expiries K is unique and the table is a map keyed by K |
| Tables.ApplyKeepsRefOrder | sqliter.cpp:140-177 | an operation keeps R ascending within each name exactly unless it inserts a row for a known name without having read the table |
| Tables.RunKeepsRefOrder | sqliter.cpp:140-177 | R ascends with Id within each name all through a run exactly when no store of it does that |
| Database.Sqlyte.StorePeer | sqliter.cpp:125-229 | the cursor loop, the insert and the update on conflict, and when the table counts as changed |
| Database.Sqlyte.GetPers | sqliter.cpp:231-261 | every row, in order, with its keys |
| Database.Sqlyte.Authorize | sqliter.cpp:264-301 | the cursor loop returns the verdict the lemmas speak of and leaves the ciphertext alone until a row accepts |
| Database.Sqlyte.Deny | sqliter.cpp:303-355 | the count of that address goes up by one and no other changes; the answer tells whether it had passed MAX_ATTEMPS |
| Database.Sqlyte.DelOldies | sqliter.cpp:61-74 | exactly the rows younger than the limit stay, in their order |
| Database.Sqlyte.UpdatePeer | sqliter.cpp:358-380 | D becomes the time in the rows of that address and port; every other field and row stays |
| Cipher.XteaEncipher | per_id.h:59-71 | the loop computes the enciphered block for any number of rounds |
| Cipher.XteaDecipher | per_id.h:74-86 | the loop, started from delta*num_rounds, computes the deciphered block |
| Cipher.MixLaw | per_id.h:66-68 | what a half-round adds, in the C operators on 32-bit vectors |
| KnownAnswer.XteaVector | per_id.h:59-86 | 32 rounds turn 41424344 45464748 under key 00010203 04050607 08090a0b 0c0d0e0f into 497df3d0 72612cb5 and back; the sum ends at c6ef3720 |
| KnownAnswer.XteaBytes | per_id.cpp:10-16 | the same on the bytes of a buffer, least significant first |
| Cipher.SumIsProduct | per_id.h:64-79 | the accumulated sum is delta*num_rounds modulo 2^32 |
| Cipher.RoundInverse | per_id.h:66-83 | each round undoes the other both ways |
| Cipher.DecipherUndoesEncipher | per_id.h:59-86 | for every number of rounds, block and key |
| Cipher.EncipherUndoesDecipher | per_id.h:59-86 | for every number of rounds, block and key |
| Cipher.CryptBlocksInverse | per_id.cpp:10-16 | ciphering the whole blocks one way and then the other gives back every byte of them |
| Cipher.CryptAt | per_id.cpp:12-15 | one block in place, the rest of the buffer untouched |
| Cipher.EdBlocks | per_id.cpp:10-16 | the loop over the whole blocks in place |
| Cipher.EdTail | per_id.cpp:17-29 | the ragged tail depends on uninitialised bytes; nothing else is written |
| Cipher.Ed | per_id.cpp:7-30 | `ed` is the per-block map and writes nothing past `len` |
| Cipher.EdRoundTrip | per_id.cpp:7-30 | either order restores every byte of the whole blocks, and the whole buffer when len%8==0 |
| Cipher.TailRoundTrip | per_id.cpp:17-29 | a ragged tail comes back when the bytes completing it are the ones its block lost |
| Capsule.PublicRoundTrip | per_id.h:37 | an endpoint written into a capsule reads back with address, port and keys; the type in the capsule stays |
| Capsule.PublicLayout | per_id.h:21-47 | address at 16, port at 20, type at 24, keys from 28 on, least significant byte first; writing an endpoint touches no other byte, nor the type |
| Capsule.ClearedBytes | per_id.h:157 | bytes 16 to 95 become zero, the others stay |
| Protocol.AckOfRegistration | u_server.cpp:126-128 | the answer to a registration is its verb and zeros, nothing of the secret |
| Capsule.WithVerbKeepsPublic | per_id.h:117-136 | changing the verb leaves the endpoint alone |
| Capsule.OpenUndoesSeal | per_id.cpp:7-30 | enciphering and deciphering a capsule under one key cancel in either order |
| Capsule.SealIsEd | per_id.cpp:7-30 | what `ed` leaves of a capsule is fully determined: its 112 bytes have no ragged tail |
| Udp.UdpXdea.SendTo | udp_xdea.cpp:24-33 | the datagram is the data under the given keys, or the data itself without keys |
| Udp.UdpXdea.SendToIpp | udp_xdea.cpp:66-80 | the datagram is enciphered under the keys the endpoint carries and goes to its address |
| Udp.UdpXdea.SendCap | udp_xdea.cpp:24-33 | a capsule to an address under given keys |
| Udp.UdpXdea.SendCapToIpp | udp_xdea.cpp:66-80 | a capsule to an endpoint under the endpoint's keys |
| Udp.UdpXdea.Receive | sock.cpp:1310-1351 | what fits is stored, the rest of the buffer stays, and the remembered source has mask 0; a failing recvfrom gives -1 with its error, a zeroed source and the buffer as it was |
| Udp.UdpXdea.ReceiveKeyed | udp_xdea.cpp:50-64 | the received bytes are deciphered, the rest of the buffer zeroed; on an error or an empty datagram the buffer stays |
| Udp.KeyedRoundTrip | udp_xdea.cpp:24-64 | a capsule sent and received under the same keys arrives unchanged |
| Address.Trichotomy | sock.h:185-216 | exactly one of <, == and > holds of any two addresses, > is < turned round, and == is symmetric |
| Address.RangeLaw | sock.h:185-206 | the addresses under both masks are compared first, then the ports, which do not count when one is 0 |
| Address.NeNegatesEq | sock.h:162-196 | != negates == exactly unless one port alone is 0 and the ranges agree |
| Address.LtStrictPartialOrder | sock.h:197-206 | over a common mask < is irreflexive and transitive, port 0 included |
| Address.LtStrictWeakOrder | sock.h:185-206 | over a common mask == carries over from a,b and b,c to a,c exactly when a and c have a port 0 or the same port, so always when b's port is not 0 |
| Address.WildcardBreaksWeakOrder | sock.h:185-206 | a port 0 between two others breaks the weak order |
| Address.ReceivedCompare | sock.cpp:1335 | received addresses compare by port alone |
| Address.InsertKeepsOrder | a_peer.cpp:262 | inserting received addresses keeps the set ascending, and the new one goes in exactly when no entry is == to it |
| Address.InsertFinds | a_peer.cpp:262 | after an insertion some entry is == to the address |
| Address.MatchesAtMostOnce | a_peer.cpp:144-150 | at most one entry matches a source, exactly unless its port is 0 and there are two entries |
| Address.Sip2ipUndoesIp2str | sock.cpp:50-73 | parsing the printed form gives address and port back; address 0 comes back with port 0 |
| Address.PrintedForm | sock.cpp:1531-1546 | the bytes of the address in memory order, then the port in host order |
| Address.LoopbackPrinted | sock.cpp:1531-1546 | 127.0.0.1:5001 in full, printed and parsed |
| Address.Sip2ipWithoutPort | sock.cpp:64-72 | four printed numbers without a port give port 0; text that does not start with a digit gives 0.0.0.0 |
| Address.Sip2ipBadPort | sock.cpp:56-71 | a colon without a number after it counts as no port |
| Words.ByteOrder | sock.h:223-225 | what the bytes of a word are worth in memory order and swapped |
| Address.ScanPrinted | sock.cpp:1531-1546 | a printed number is read back, with the text after it left over |
| Streams.TcpSock.SendAll | sock.cpp:406-436 | the wire gains exactly the prefix `buff[..sent]`, and errno and destruction follow the last answer |
| Streams.SendingBounds | sock.cpp:406-436 | all is sent exactly when the loop ended for that reason; patience bounds the EAGAIN answers and the calls |
| Streams.SendAllTerminates | sock.cpp:412-434 | at most length + tout/10 + 1 socket calls for tout >= 0 |
| Streams.LastAnswer | sock.cpp:416-430 | the last answer decides the end: errno 0 stops, 11 gives up, anything else destroys the socket |
| Streams.AlwaysAgain | sock.cpp:420-428 | a socket that always answers 11 is asked once more than its patience |
| Streams.PatienceOfTout | sock.cpp:412 | the patience is tout/10 + 1 with the division of C |
| Streams.TcpSock.ReceiveAll | sock.cpp:385-402 | the received stream is the prefix of the buffer, nothing is written past it |
| Streams.ArrivingShort | sock.cpp:394-396 | a short result means a call that delivered nothing |
| Streams.ArrivingIsStream | sock.cpp:392-399 | what arrives is the front of what the calls deliver until one delivers nothing, as much as was asked for |
| Pairing.Peers.Add | peers.cpp:15-58 | in place: which side is filled, and what is answered |
| Pairing.Peers.Remove | peers.cpp:9-13 | the name goes, nothing else |
| Pairing.Peers.Find | peers.cpp:60-66 | the entry of the name, if any |
| Pairing.Peers.DelOldies | peers.cpp:68-80 | the restarting scan ends and leaves exactly the young entries, unchanged |
| Pairing.ReachableGood | peers.cpp:15-58 | in every reachable table side b filled implies side a filled, and no entry has taken over a type |
| Pairing.AddedElsewhere | peers.cpp:17-57 | a new name gets side a and the time, an empty side a is filled, a full entry and all other names stay |
| Pairing.ReachableSidesApart | peers.cpp:31-46 | for endpoints of type 0 the sides share no endpoint, except the second one under the loopback exemption |
| Pairing.AddedToHalfFilled | peers.cpp:31-46 | a half-filled entry turns a client away exactly for an endpoint of type 0 that side a has (its second one only without a loopback address); otherwise the client becomes side b, its types left out |
| Pairing.DuplicateCheckNeedsUntyped | per_id.h:36-37 | every duplicate of a half-filled untyped entry is turned away exactly when both types of the client are 0 |
| Pairing.TypedClientPairsWithItself | peers.cpp:31-46 | failing input: a typed client that is added twice fills both sides, which then share an endpoint |
| Pairing.TypedSecondEndpointIsMissed | peers.cpp:31-46 | failing input: so does one whose untyped first endpoint is new and whose typed second one is side a's first |
| Pairing.EntryLifetime | peers.cpp:15-58 | while an entry lives `born` stays, and a full entry is frozen |
| Pairing.KeptIsFinal | peers.cpp:68-80 | a second expiry at the same time or earlier changes nothing |
| Counting.CntPtr.constructor | osthread.h:453-455 | a new handle on a new counter, or a null handle |
| Counting.CntPtr.Copy | osthread.h:459-461 | the copy shares the counter, which counts one more |
| Counting.CntPtr.AddRef | osthread.h:501-504 | the counter counts one more |
| Counting.CntPtr.Dec | osthread.h:505-513 | the last handle deletes the payload and the counter |
| Counting.CntPtr.Destroy | osthread.h:456-458 | the handle is gone and no longer counted |
| Counting.CntPtr.Assign | osthread.h:462-468 | leaving one counter and joining another, also between handles that share one |
| Counting.CntPtr.Detach | osthread.h:488-494 | the payload is handed back, the counter freed |
| Counting.WrappedKeepsInv | osthread.h:453-455 | wrapping a new pointer keeps the counts and owners right |
| Counting.JoinedKeepsInv | osthread.h:501-504 | so does joining a live counter |
| Counting.LeftKeepsInv | osthread.h:505-513 | so does leaving one, freeing it with the last handle |
| Counting.LastHandleDeletes | osthread.h:505-513 | dec counts down, and the last handle frees the counter and deletes the payload |
| Counting.RunGivesDetached | osthread.h:488-513 | in every run exactly as many payloads were given back as detach was called; all others that are gone were deleted |
| Counting.AssignedKeepsInv | osthread.h:462-468 | so does assignment |
| Counting.DestroyedKeepsInv | osthread.h:456-458 | so does destruction |
| Counting.DetachedKeepsInv | osthread.h:488-494 | detach does exactly when the handle shares its counter with no other |
| Counting.RunKeepsInv | osthread.h:449-514 | in every run each counter counts its handles, no handle refers to a freed counter, each payload is in one place; with no handle left every payload is gone, once |

## Assumptions

- The peers of `Protocol` share one secret, as the constant `__meikey` makes them; the server lists
  it, and no earlier row takes a registration for its own. Sources are truthful. No peer uses
  port 0 or the server's port. What users type may be of any length but must not decipher to a
  ping or a pong (`Protocol.Harmless`): a peer reads anything as long as a capsule as one.
- `KeyChain` has none of these limits on keys.
- Table scans run in Id order. The clock of `PeerRuns.RegistrationBound` never goes back.
- Layout is that of gcc on x86-64. `htonl` and `htons` are the byte swaps of a little-endian host.
- `std::set` and `std::map` are ascending sequences and maps.

## Left out

- Liveness and cryptographic strength: `Linking` and `Reachability` say what deliveries do, not that they happen.
- SQL text, quoting and truncation of names, busy timeouts and commit errors. A statement is its effect on the rows; only the failure of the SELECT in `store_peer` is modelled.
- `std::hash` and the text buffer its input is formatted in: K is an arbitrary function of address, port, id and keys.
- Database.Sqlyte.RemovePeer: does not say which rows go, because the statement names a raw character instead of a number; the rows it hits are an input.
- Database.Sqlyte.DelOldies: the limit is an input, because the statement compares a datetime with a date.
- ServerModel.Run: peers never send SRV_UNREGISTER or PER_AIH, but the server's answers to them are modelled all the same.
- Cipher.EdTail: the uninitialised stack bytes are arbitrary.
- Protocol.LinkHasHistory: links and not group names; there is no group isolation to prove.
- A datagram whose send fails is one the network loses; only `send` returning 0 for a registration ends a peer.
- Streams.TcpSock.SendAll: the 10 milliseconds of sleep between attempts.
- The `udp_xdea` overloads for a host name and port, `receive` with an address, which receives twice, and `receive` with an endpoint.
- `CntPtr::operator=(const U*)`, which does not compile when used, and `ptr`, `obj` and the dereferencing operators.
- Counting.CntPtr.constructor: at most 2^32-1 handles exist at a time, so counters do not wrap.
- Pairing.Peers.Find: gives the entry as a value, not a pointer into the map.
- Address.Sip2ipUndoesIp2str: numerals too large for an int are not modelled; printing makes none.
- Access.FullSecretFixesKeys: white space, signs or `0x` in a secret, which sscanf would accept.
- SADDR_46 text input with ranges, its file operators, `isequal` and `compare_range_ip`.
- Sockets, select, DNS, interface enumeration, TCP connect, threads, keyboard, console output, `main.cpp`, `pipefiles`, the stale `.save` and `.autosave` files.

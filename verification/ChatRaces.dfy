/** A race the whole server allows: a worker logs a user in on a connection that was closed meanwhile. */
module ChatRaces {
  import opened Wrappers
  import opened PacketCodec
  import opened PacketIo
  import opened Protocol
  import opened ReplySizes
  import opened Sessions
  import opened UserStore
  import opened ServerState
  import opened ChatServer
  import opened ChatLiveness
  import C = Chat
  import Commands
  import ChatService
  import Passwords

  function AnyKey(password: string, iterations: nat, salt: seq<Passwords.Byte>): Option<seq<Passwords.Byte>> {
    Some(seq(Passwords.KDF_BYTES, i => 0))
  }

  const ENV := C.Environment(AnyKey, Some([0]))
  const REGISTER := Commands.Register("a", "b")
  const LOGIN := Commands.Login("a", "b")

  function Packets(): seq<string> {
    [Commands.CommandLine(REGISTER), Commands.CommandLine(LOGIN)]
  }

  lemma PacketsAreCommands()
    ensures Encodable(Packets()[0]) && Commands.ParseClientCommand(Packets()[0]) == Ok(REGISTER)
    ensures Encodable(Packets()[1]) && Commands.ParseClientCommand(Packets()[1]) == Ok(LOGIN)
  {
    hide Commands.ParseClientCommand, FormatJson, Escapes;
    var fields := [StringField("username", "a"), StringField("password", "b")];
    Commands.PrintedIsRead(REGISTER);
    Commands.PrintedIsRead(LOGIN);
    FormatLength("register", fields);
    FormatLength("login", fields);
    FieldsHere(fields);
  }

  lemma FieldsHere(fields: seq<Field>)
    requires fields == [StringField("username", "a"), StringField("password", "b")]
    ensures FieldsSize(fields) <= 100 && |"register"| == 8 && |"login"| == 5
  {
    assert fields[1..] == [StringField("password", "b")] && fields[1..][1..] == [];
    assert |"username"| == 8 && |"password"| == 8;
    AtMostDouble("a");
    AtMostDouble("b");
    assert FieldsSize(fields[1..]) == 14 + TextSize("b");
  }

  lemma {:induction false} AtMostDouble(s: string)
    ensures Escapes(s) <= |s|
  {
    if s != "" {
      AtMostDouble(s[1..]);
    }
  }

  /** One read brings both packets. */
  function Arriving(): string {
    EncodeAll(Packets())
  }

  lemma BothArrive()
    ensures Receive([Received(Arriving())], "", MAX_PAYLOAD) == RecvResult(RecvOk, Packets(), "")
    ensures ReadAll([Received(Arriving())]) == (Drained, Arriving())
  {
    hide Packets, Frame;
    PacketsAreCommands();
    PacketsLength();
    DecodeEncodeAll(Packets(), "");
    assert EncodeAll(Packets()) + "" == EncodeAll(Packets());
    assert Decode("", MAX_PAYLOAD) == Decoded([], "", false) && Packets() + [] == Packets();
    ArrivingIsNotEmpty();
    assert [Received(Arriving())][1..] == [] && "" + Arriving() == Arriving() && Arriving() + "" == Arriving();
  }

  lemma PacketsLength()
    ensures |Packets()| == 2 && forall p :: p in Packets() ==> p == Packets()[0] || p == Packets()[1]
  {
  }

  lemma ArrivingIsNotEmpty()
    ensures Arriving() != ""
  {
    hide Commands.CommandLine, EncodeAll;
    assert Packets() != [];
    assert EncodeAll(Packets()) == EncodeAll(Packets()[..1]) + Frame(Packets()[1]) by { EncodedTwo(); }
  }

  lemma EncodedTwo()
    ensures EncodeAll(Packets()) == EncodeAll(Packets()[..1]) + Frame(Packets()[1])
  {
    hide Commands.CommandLine, Frame;
  }

  function Registered(): C.Chat {
    C.EMPTY.(users := RegisterOne(AnyKey, NO_USERS, Registration("a", "b", Some([0]))).0)
  }

  lemma RegisterWorks()
    ensures C.HandleLine(C.EMPTY, 1, Packets()[0], ENV).0 == Registered()
    ensures Registered().users.VerifyLogin(AnyKey, "a", "b").Some?
    ensures Registered().users.VerifyLogin(AnyKey, "a", "b").value.id == 1
    ensures Registered().users.VerifyLogin(AnyKey, "a", "b").value.username == "a"
  {
    hide Commands.ParseClientCommand, Packets, Passwords.Record, Passwords.Verify;
    PacketsAreCommands();
    Passwords.RecordNotEmpty(Passwords.DEFAULT_ITERATIONS, [0], AnyKey("b", Passwords.DEFAULT_ITERATIONS, [0]).value);
    Passwords.RecordRoundTrip(AnyKey, "b", Passwords.DEFAULT_ITERATIONS, [0], "b");
  }

  lemma LoginWorks()
    ensures var chat := C.HandleLine(Registered(), 1, Packets()[1], ENV).0;
            1 in chat.indexes.byUser && chat.indexes.byUser[1].connectionId == 1
  {
    hide Commands.ParseClientCommand, Packets, Users.VerifyLogin;
    PacketsAreCommands();
    RegisterWorks();
  }

  const START := Net(map[], map[], 1, 1, [], [], [], [], [], Kernel(map[], map[], map[], 0),
                     History(map[], map[], map[], [], 0))
  const OPENED := START.Accept(3, true, 0)

  lemma ReadWorks(limits: Limits)
    ensures var net := OPENED.HandleClientRead(3, [Received(Arriving())], 0, true, limits);
            net.work == [Batch(1, 1, [], Packets())] && 1 in net.connections
  {
    hide Receive, ReadAll, Packets, Arriving;
    BothArrive();
    PacketsLength();
  }

  lemma AcceptStep(limits: Limits)
    ensures ServerState.Initial(START)
    ensures Possible(System(START, C.EMPTY), Network(Accepted(3, true, 0)))
    ensures Act(System(START, C.EMPTY), Network(Accepted(3, true, 0)), limits) == System(OPENED, C.EMPTY)
  {
    hide C.EMPTY;
  }

  lemma ReadStep(limits: Limits)
    ensures Possible(System(OPENED, C.EMPTY), Network(Readable(3, [Received(Arriving())], 0, true)))
    ensures var action := Network(Readable(3, [Received(Arriving())], 0, true));
            var after := Act(System(OPENED, C.EMPTY), action, limits);
            after.net.work == [Batch(1, 1, [], Packets())] && after.chat == C.EMPTY
  {
    hide Packets, Arriving, Net.HandleClientRead;
    ReadWorks(limits);
  }

  lemma RegisterStep(s: System, limits: Limits)
    requires s.chat == C.EMPTY && s.net.work == [Batch(1, 1, [], Packets())]
    ensures Possible(s, Work(0, ENV))
    ensures var after := Act(s, Work(0, ENV), limits);
            after.chat == Registered() && after.net.work == [Batch(1, 1, [Packets()[0]], [Packets()[1]])]
  {
    hide Packets, Registered, C.HandleLine, ChatService.Rendered, Net.ProcessPacket, Users.VerifyLogin, C.EMPTY, ENV;
    PacketsLength();
    RegisterWorks();
    assert Packets() == [Packets()[0], Packets()[1]];
    FirstIsHandled(s.net, Packets()[0], Packets()[1], Worked(s, 0, ENV).1, limits);
  }

  lemma FirstIsHandled(net: Net, first: string, second: string, out: seq<Outbound>, limits: Limits)
    requires net.work == [Batch(1, 1, [], [first, second])]
    ensures net.ProcessPacket(0, out, limits).work == [Batch(1, 1, [first], [second])]
  {
    hide QueueEntries;
    assert [first, second][1..] == [second] && [] + [first] == [first];
  }

  lemma DropStep(s: System, limits: Limits)
    requires s.chat == Registered()
    ensures Possible(s, Network(Drop(1)))
    ensures var after := Act(s, Network(Drop(1)), limits);
            after.chat == Registered() && after.net.work == s.net.work && 1 !in after.net.connections
  {
    hide RegisterOne;
    NobodyLeaves();
  }

  lemma NobodyLeaves()
    ensures C.HandleDisconnect(Registered(), 1) == Registered()
  {
    hide RegisterOne;
  }

  lemma LoginStep(s: System, limits: Limits)
    requires s.chat == Registered() && s.net.work == [Batch(1, 1, [Packets()[0]], [Packets()[1]])]
    requires 1 !in s.net.connections
    ensures Possible(s, Work(0, ENV))
    ensures var after := Act(s, Work(0, ENV), limits);
            && 1 in after.chat.indexes.byUser && after.chat.indexes.byUser[1].connectionId == 1
            && 1 !in after.net.connections && |after.net.work| == 1 && after.net.work[0].packets == []
  {
    hide Packets, Registered, C.HandleLine, ChatService.Rendered, QueueEntries;
    LoginWorks();
  }

  lemma NothingWaits(s: System, u: nat)
    requires Stranded(s, u) && forall b :: 0 <= b < |s.net.work| ==> s.net.work[b].packets == []
    ensures Stuck(s, u)
  {
  }

  /** In every configuration there is a run of the whole server after which a user has a session on a
      closed connection that nothing can end: it registers and asks to log in, and is gone when the
      worker comes to its second command. */
  lemma SessionOutlivesConnection(limits: Limits) returns (states: seq<System>, actions: seq<Action>)
    ensures ChatServer.Run(states, actions, limits)
    ensures Stuck(states[|actions|], 1)
  {
    hide Packets, Arriving, Registered, Act, Possible, ServerState.Initial, START, OPENED, C.EMPTY;
    var s0, a0 := System(START, C.EMPTY), Network(Accepted(3, true, 0));
    var s1, a1 := System(OPENED, C.EMPTY), Network(Readable(3, [Received(Arriving())], 0, true));
    AcceptStep(limits);
    ReadStep(limits);
    var s2 := Act(s1, a1, limits);
    RegisterStep(s2, limits);
    var s3 := Act(s2, Work(0, ENV), limits);
    DropStep(s3, limits);
    var s4 := Act(s3, Network(Drop(1)), limits);
    LoginStep(s4, limits);
    var s5 := Act(s4, Work(0, ENV), limits);
    NothingWaits(s5, 1);
    states := [s0, s1, s2, s3, s4, s5];
    actions := [a0, a1, Work(0, ENV), Network(Drop(1)), Work(0, ENV)];
  }
}

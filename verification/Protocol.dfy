/**
 * What the client makes of the bytes of its peer, said field by field: which replies log it in,
 * which are rejections, and which messages a list consists of.
 */
module Protocols {
  import opened Text
  import opened Messages
  import opened Codec
  import opened Clients

  /** The first field with a key, in whatever case, decides; a value is compared in any case. */
  lemma FirstFieldDecides(fs: Fields, key: string, key': string, value: string)
    requires EqualFold(key, key') && value != ""
    ensures EqualFold(Lookup(fs, key), value) <==>
            exists i :: 0 <= i < |fs| && EqualFold(fs[i].key, key') && EqualFold(fs[i].value, value) &&
              forall j :: 0 <= j < i ==> !EqualFold(fs[j].key, key')
  {
    FoldsToEmpty(value);
    var k := Find(fs, key);
    if i :| 0 <= i < |fs| && EqualFold(fs[i].key, key') && EqualFold(fs[i].value, value) &&
            forall j :: 0 <= j < i ==> !EqualFold(fs[j].key, key') {
      FindIs(fs, key, i);
    }
    if k < |fs| && EqualFold(fs[k].value, value) {
      assert EqualFold(fs[k].key, key') && forall j :: 0 <= j < k ==> !EqualFold(fs[j].key, key');
    }
  }

  lemma ResponseKey()
    ensures EqualFold("Response", "response")
  {
    EqualFoldExactly("Response", "response");
  }

  lemma SuccessValue(s: string)
    ensures EqualFold(s, "Success") <==> EqualFold(s, "success")
  {
    EqualFoldExactly("Success", "success");
  }

  /** The first field keyed `response`, in any case, says `success`, in any case. */
  ghost predicate SaysSuccess(fs: Fields) {
    exists i :: 0 <= i < |fs| && EqualFold(fs[i].key, "response") && EqualFold(fs[i].value, "success") &&
      forall j :: 0 <= j < i ==> !EqualFold(fs[j].key, "response")
  }

  lemma SuccessByFields(fs: Fields)
    ensures EqualFold(Lookup(fs, "Response"), "Success") <==> SaysSuccess(fs)
    ensures Success(fs) <==> SaysSuccess(fs)
  {
    ResponseKey();
    SuccessValue(Lookup(fs, "Response"));
    FirstFieldDecides(fs, "Response", "response", "success");
  }

  /** Among the messages of a list: the completion, the items and the noise. */
  lemma ListRolesExactly(id: string, complete: string, m: Fields)
    ensures Completes(id, complete, m) <==>
            Lookup(m, "ActionID") in {"", id} && EqualFold(Lookup(m, "Event"), complete)
    ensures IsItem(id, complete, m) <==>
            Lookup(m, "ActionID") in {"", id} && Lookup(m, "Event") != "" && !EqualFold(Lookup(m, "Event"), complete)
    ensures IsNoise(id, complete, m) <==>
            Lookup(m, "ActionID") !in {"", id} || (Lookup(m, "Event") == "" && complete != "")
  {
  }

  /** The first call of a client has identifier 1. */
  lemma FirstIdentifier()
    ensures IdOf(1) == "1"
  {
    FormatExactly(1);
  }

  /** A reply with the login's identifier or none logs in exactly when it says success, and is consumed exactly. */
  lemma LoginByBytes(id: string, reply: Fields, tail: string, end: StreamEnd)
    requires WellFormed(reply) && Lookup(reply, "ActionID") in {"", id}
    ensures LoginOf(id, Encode(reply) + tail, end) ==
            (if SaysSuccess(reply) then LoggedIn else LoginRejected(Lookup(reply, "Message")), tail)
  {
    RoundTrip(reply, tail, end);
    SuccessByFields(reply);
  }

  /** The same of any bytes whose next message is the reply. */
  method LoginAnswered(client: Client, ghost reply: Fields, ghost tail: string) returns (result: LoginResult)
    requires client.Valid() && client.Usable(LoginRequest(client.config))
    requires Read(client.reader.Unread(), client.reader.end) == (Msg(reply), tail)
    requires Lookup(reply, "ActionID") in {"", IdOf(client.actions + 1)}
    modifies client, client.reader
    ensures client.Valid() && client.reader.Unread() == tail
    ensures result == if SaysSuccess(reply) then LoggedIn else LoginRejected(Lookup(reply, "Message"))
  {
    SuccessByFields(reply);
    result := client.Login();
  }

  /** A list call whose first reply does not say success is rejected, whoever the reply was meant for. */
  lemma RefusalByBytes(action: string, id: string, complete: string, reply: Fields, tail: string, end: StreamEnd)
    requires WellFormed(reply) && !SaysSuccess(reply)
    ensures ListReplyOf(action, id, complete, Encode(reply) + tail, end) ==
            (ListFailed(Rejected(action, Lookup(reply, "Message"))), tail)
  {
    RoundTrip(reply, tail, end);
    SuccessByFields(reply);
  }

  method ListRefused(client: Client, request: Fields, complete: string, ghost reply: Fields, ghost tail: string)
    returns (listing: ListReply)
    requires client.Valid() && client.Usable(request)
    requires Read(client.reader.Unread(), client.reader.end) == (Msg(reply), tail) && !SaysSuccess(reply)
    modifies client, client.reader
    ensures client.Valid() && client.reader.Unread() == tail
    ensures listing == ListFailed(Rejected(Lookup(request, "Action"), Lookup(reply, "Message")))
  {
    SuccessByFields(reply);
    listing := client.ListAction(request, complete);
  }

  /** The messages between the first response and the completion: items, and noise for this call. */
  ghost predicate IsBody(id: string, complete: string, body: seq<Sent>) {
    forall s :: s in body ==>
      && LawfulFrame(s.frame)
      && var m := s.frame.message;
         if s.Item?
         then Lookup(m, "ActionID") in {"", id} && Lookup(m, "Event") != "" && !EqualFold(Lookup(m, "Event"), complete)
         else Lookup(m, "ActionID") !in {"", id} || (Lookup(m, "Event") == "" && complete != "")
  }

  lemma BodyIsLawful(id: string, complete: string, body: seq<Sent>)
    requires IsBody(id, complete, body)
    ensures LawfulBody(id, complete, body)
  {
    forall s | s in body
      ensures if s.Item? then IsItem(id, complete, s.frame.message) else IsNoise(id, complete, s.frame.message)
    {
      ListRolesExactly(id, complete, s.frame.message);
    }
  }

  /** A success, items and noise in any order, and the call's completion event in any case make the list of the items. */
  lemma ListByBytes(action: string, id: string, complete: string,
                    first: Frame, body: seq<Sent>, done: Frame, tail: string, end: StreamEnd)
    requires LawfulFrame(first) && SaysSuccess(first.message) && IsBody(id, complete, body)
    requires LawfulFrame(done) && Lookup(done.message, "ActionID") in {"", id}
    requires EqualFold(Lookup(done.message, "Event"), complete)
    ensures ListReplyOf(action, id, complete, ListBytes(first, body, done) + tail, end) == (Items(ItemsSent(body)), tail)
  {
    SuccessByFields(first.message);
    BodyIsLawful(id, complete, body);
    ListRolesExactly(id, complete, done.message);
    ListEndToEnd(action, id, complete, first, body, done, tail, end);
  }

  method ListAnswered(client: Client, request: Fields, complete: string,
                      ghost first: Frame, ghost body: seq<Sent>, ghost done: Frame, ghost tail: string)
    returns (listing: ListReply)
    requires client.Valid() && client.Usable(request)
    requires client.reader.Unread() == ListBytes(first, body, done) + tail
    requires LawfulFrame(first) && SaysSuccess(first.message) && IsBody(IdOf(client.actions + 1), complete, body)
    requires LawfulFrame(done) && Lookup(done.message, "ActionID") in {"", IdOf(client.actions + 1)}
    requires EqualFold(Lookup(done.message, "Event"), complete)
    modifies client, client.reader
    ensures client.Valid() && client.reader.Unread() == tail
    ensures listing == Items(ItemsSent(body))
  {
    ListByBytes(Lookup(request, "Action"), IdOf(client.actions + 1), complete, first, body, done, tail, client.reader.end);
    listing := ListAsSpecified(client, request, complete, client.reader.Unread(), ItemsSent(body), tail);
  }

  method ListAsSpecified(client: Client, request: Fields, complete: string,
                         ghost input: string, ghost items: seq<Fields>, ghost tail: string)
    returns (listing: ListReply)
    requires client.Valid() && client.Usable(request) && client.reader.Unread() == input
    requires ListReplyOf(Lookup(request, "Action"), IdOf(client.actions + 1), complete, input, client.reader.end) ==
             (Items(items), tail)
    modifies client, client.reader
    ensures client.Valid() && client.reader.Unread() == tail && listing == Items(items)
  {
    listing := client.ListAction(request, complete);
  }

  /** What was sent as items is just that: the messages of the items, in order. */
  lemma {:induction false} ItemsSentExactly(body: seq<Sent>, s: Sent)
    ensures ItemsSent([]) == []
    ensures ItemsSent(body + [s]) == ItemsSent(body) + if s.Item? then [s.frame.message] else []
  {
    if body == [] {
      assert [s][1..] == [];
    } else {
      assert (body + [s])[0] == body[0] && (body + [s])[1..] == body[1..] + [s];
      ItemsSentExactly(body[1..], s);
      Assoc(if body[0].Item? then [body[0].frame.message] else [], ItemsSent(body[1..]),
            if s.Item? then [s.frame.message] else []);
    }
  }
}

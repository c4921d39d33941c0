/**
 * The messaging client both notifier scripts use, reduced to what the model
 * needs: the sender and recipients of the credentials file, and a ghost
 * outbox recording every `messages.create(to=…, from_=…, body=…)` call.
 */
module Messaging {

  /** One created message: recipient, sender, body. */
  datatype Sms = Sms(to: string, from: string, body: string)

  /** The part of the credentials the sending loop uses. */
  datatype Credentials = Credentials(fromPhone: string, toPhones: seq<string>)
  {
    /** The startup check `assert data['twilio']['to_phones']`: at least one recipient. */
    predicate Valid()
    {
      |toPhones| > 0
    }
  }

  /** The messaging client; its outbox stands for the provider's record of created messages. */
  class Client {
    ghost var outbox: seq<Sms>

    constructor ()
      ensures outbox == []
    {
      outbox := [];
    }

    /** `messages.create`: one message is added to the outbox. */
    method Create(to: string, from: string, body: string)
      modifies this
      ensures outbox == old(outbox) + [Sms(to, from, body)]
    {
      outbox := outbox + [Sms(to, from, body)];
    }
  }

  /** One message per recipient, in list order, each from `from` with `body`. */
  function Fanout(toPhones: seq<string>, from: string, body: string): (msgs: seq<Sms>)
    ensures |msgs| == |toPhones|
    decreases |toPhones|
  {
    if toPhones == [] then [] else [Sms(toPhones[0], from, body)] + Fanout(toPhones[1..], from, body)
  }

  /** Entry `k` of the fan-out goes to recipient `k`, with the common sender and body. */
  lemma {:induction false} FanoutEntries(toPhones: seq<string>, from: string, body: string)
    ensures |Fanout(toPhones, from, body)| == |toPhones|
    ensures forall k :: 0 <= k < |toPhones| ==> Fanout(toPhones, from, body)[k] == Sms(toPhones[k], from, body)
    decreases |toPhones|
  {
    if toPhones != [] {
      FanoutEntries(toPhones[1..], from, body);
    }
  }

  /** Sending to one more recipient appends one message. */
  lemma {:induction false} FanoutSnoc(toPhones: seq<string>, to: string, from: string, body: string)
    ensures Fanout(toPhones + [to], from, body) == Fanout(toPhones, from, body) + [Sms(to, from, body)]
    decreases |toPhones|
  {
    if toPhones == [] {
      assert toPhones + [to] == [to];
    } else {
      assert (toPhones + [to])[1..] == toPhones[1..] + [to];
      FanoutSnoc(toPhones[1..], to, from, body);
    }
  }

  /**
   * The `for to_phone in twilio_to_phones` loop: one `messages.create` per
   * recipient, in order, all with the same sender and body.
   */
  method SendToAll(client: Client, creds: Credentials, body: string)
    modifies client
    ensures client.outbox == old(client.outbox) + Fanout(creds.toPhones, creds.fromPhone, body)
  {
    var i := 0;
    while i < |creds.toPhones|
      invariant 0 <= i <= |creds.toPhones|
      invariant client.outbox == old(client.outbox) + Fanout(creds.toPhones[..i], creds.fromPhone, body)
    {
      FanoutSnoc(creds.toPhones[..i], creds.toPhones[i], creds.fromPhone, body);
      assert creds.toPhones[..i + 1] == creds.toPhones[..i] + [creds.toPhones[i]];
      client.Create(creds.toPhones[i], creds.fromPhone, body);
      i := i + 1;
    }
    assert creds.toPhones[..i] == creds.toPhones;
  }
}

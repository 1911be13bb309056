/** The walk over a USB configuration: a chain of descriptors, each starting with its own length. */
module Descriptors {
  import opened Bytes

  /** Bulk OUT endpoint 4, among the endpoint descriptors (section 9.6.6 of the USB 2.0 specification). */
  predicate BulkOutFour(item: Buffer) {
    |item| >= 7 && item[1] == 5 && item[2] == 4 && item[3] % 4 == 2
  }

  /**
   * An endpoint descriptor by its fields: the number and the direction of the endpoint, the type of
   * its transfers, and whatever else it says. It is the wanted one exactly as endpoint 4, out, bulk.
   */
  lemma EndpointMeans(number: nat, incoming: bool, transfers: nat, flags: nat, rest: Buffer)
    requires number < 16 && transfers < 4 && flags < 64 && 3 <= |rest| <= 251
    ensures var item := [4 + |rest|, 5, number + (if incoming then 0x80 else 0), transfers + 4 * flags] + rest;
            BulkOutFour(item) <==> number == 4 && !incoming && transfers == 2
  {
    assert (transfers + 4 * flags) % 4 == transfers;
  }

  predicate WellFormed(item: Buffer) { |item| >= 2 && item[0] == |item| }

  function Flatten(items: seq<Buffer>): Buffer {
    if items == [] then [] else items[0] + Flatten(items[1..])
  }

  ghost predicate Chain(s: Buffer, items: seq<Buffer>) {
    Flatten(items) == s && forall i | 0 <= i < |items| :: WellFormed(items[i])
  }

  /** The bytes are a chain of well-formed descriptors with a bulk OUT endpoint 4 among them. */
  ghost predicate Advertises(s: Buffer) {
    exists items :: Chain(s, items) && exists i | 0 <= i < |items| :: BulkOutFour(items[i])
  }

  /** No bytes can be read as two different chains. */
  lemma {:induction false} ChainUnique(s: Buffer, a: seq<Buffer>, b: seq<Buffer>)
    requires Chain(s, a) && Chain(s, b)
    ensures a == b
    decreases |a|
  {
    if a != [] && b != [] {
      assert WellFormed(a[0]) && WellFormed(b[0]);
      assert s[0] == a[0][0] && s[0] == b[0][0];
      assert a[0] == s[..|a[0]|] == b[0];
      assert s[|a[0]|..] == Flatten(a[1..]) && s[|a[0]|..] == Flatten(b[1..]);
      ChainUnique(s[|a[0]|..], a[1..], b[1..]);
      assert a == [a[0]] + a[1..] && b == [b[0]] + b[1..];
    }
  }

  lemma {:induction false} FlattenAppend(items: seq<Buffer>, item: Buffer)
    ensures Flatten(items + [item]) == Flatten(items) + item
  {
    if items == [] {
      assert [item][1..] == [];
    } else {
      FlattenAppend(items[1..], item);
      assert (items + [item])[1..] == items[1..] + [item];
    }
  }

  /** A chain that starts with other items first goes through them. */
  lemma {:induction false} ChainContinues(items: seq<Buffer>, rest: Buffer, all: seq<Buffer>)
    requires Chain(Flatten(items) + rest, all)
    requires forall i | 0 <= i < |items| :: WellFormed(items[i])
    ensures items <= all && Chain(rest, all[|items|..])
    decreases |items|
  {
    var s := Flatten(items) + rest;
    if items == [] {
      assert s == rest && all[0..] == all;
    } else {
      assert WellFormed(items[0]) && s[0] == items[0][0];
      assert all != [] && WellFormed(all[0]) && s[0] == all[0][0];
      assert items[0] == s[..|items[0]|] == all[0];
      var tail := Flatten(items[1..]) + rest;
      assert s[|items[0]|..] == tail == Flatten(all[1..]);
      ChainContinues(items[1..], rest, all[1..]);
      assert all[1..][|items[1..]|..] == all[|items|..];
      assert items == [items[0]] + items[1..] && all == [all[0]] + all[1..];
    }
  }

  /** The walk; None when it meets a length that is too short or runs over the end. */
  method FindBulkOut(configuration: Buffer) returns (found: Option<bool>)
    ensures found == None <==> !exists items :: Chain(configuration, items)
    ensures found == Some(true) <==> Advertises(configuration)
  {
    found := Some(false);
    var offset := 0;
    ghost var items: seq<Buffer> := [];
    while offset < |configuration|
      invariant offset <= |configuration|
      invariant Chain(configuration[..offset], items)
      invariant found == Some(exists i | 0 <= i < |items| :: BulkOutFour(items[i]))
    {
      var size: nat := configuration[offset];
      if size < 2 || offset + size > |configuration| {
        forall all | Chain(configuration, all) ensures false {
          assert Flatten(items) + configuration[offset..] == configuration;
          ChainContinues(items, configuration[offset..], all);
          CannotContinue(configuration[offset..], all[|items|..]);
        }
        return None;
      }
      var item := configuration[offset..offset + size];
      if BulkOutFour(item) {
        found := Some(true);
      }
      FlattenAppend(items, item);
      assert configuration[..offset + size] == configuration[..offset] + item;
      ghost var before := items;
      items := items + [item];
      offset := offset + size;
      assert forall i | 0 <= i < |before| :: items[i] == before[i];
      assert items[|before|] == item;
    }
    assert configuration[..offset] == configuration;
    if all :| Chain(configuration, all) && exists i | 0 <= i < |all| :: BulkOutFour(all[i]) {
      ChainUnique(configuration, all, items);
    }
  }

  lemma CannotContinue(rest: Buffer, all: seq<Buffer>)
    requires rest != [] && Chain(rest, all)
    ensures 2 <= rest[0] <= |rest|
  {
    assert all != [] && WellFormed(all[0]) && all[0][0] == rest[0];
  }
}

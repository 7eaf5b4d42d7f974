/** Transactions and their two dictionary encodings: the ordered one that is
    hashed and signed, and the plain copy that is persisted. */
module Transactions {
  import opened Wrappers

  /** A value stored under a key of a transaction's dictionary: text for the
      participants and the signature, a number for the amount. */
  datatype Value = Text(text: string) | Number(number: real)

  /** A value transfer from `sender` to `recipient`. The reward transaction
      created by mining carries an empty signature. */
  datatype Transaction = Transaction(
    sender: string,
    recipient: string,
    amount: real,
    signature: string)

  /** An ordered dictionary: its entries in insertion order. */
  type OrderedDict = seq<(string, Value)>

  /** The key order of the canonical encoding. */
  const FieldOrder: seq<string> := ["sender", "recipient", "amount", "signature"]

  /** The keys of an ordered dictionary, in order. */
  function Keys(d: OrderedDict): seq<string>
  {
    seq(|d|, i requires 0 <= i < |d| => d[i].0)
  }

  /** `(key, v)` is an entry of `d` and no later entry has `key`. */
  ghost predicate IsLastEntry(d: OrderedDict, key: string, v: Value)
  {
    exists i :: 0 <= i < |d| && d[i] == (key, v) && key !in Keys(d[i + 1..])
  }

  /** Dictionary lookup `d[key]`; `None` stands for the `KeyError`. When a
      key occurs more than once the last entry wins, as when a Python
      dictionary is built from a list of pairs. */
  function Lookup(d: OrderedDict, key: string): (r: Option<Value>)
    ensures r.Some? <==> key in Keys(d)
    ensures r.Some? ==> IsLastEntry(d, key, r.value)
    decreases |d|
  {
    if |d| == 0 then None
    else
      var last := d[|d| - 1];
      var init := d[..|d| - 1];
      assert Keys(d) == Keys(init) + [last.0];
      if last.0 == key then
        assert Keys(d[|d|..]) == [];
        Some(last.1)
      else
        var r := Lookup(init, key);
        assert r.Some? ==> IsLastEntry(d, key, r.value) by {
          if r.Some? {
            var i :| 0 <= i < |init| && init[i] == (key, r.value) && key !in Keys(init[i + 1..]);
            assert d[i + 1..] == init[i + 1..] + [last];
            assert Keys(d[i + 1..]) == Keys(init[i + 1..]) + [last.0];
            assert d[i] == (key, r.value) && key !in Keys(d[i + 1..]);
          }
        }
        r
  }

  /** The canonical encoding of a transaction: the input of signing and of
      the proof-of-work hash. */
  function ToOrderedDict(t: Transaction): (d: OrderedDict)
    ensures Keys(d) == FieldOrder
    ensures Lookup(d, "sender") == Some(Text(t.sender))
    ensures Lookup(d, "recipient") == Some(Text(t.recipient))
    ensures Lookup(d, "amount") == Some(Number(t.amount))
    ensures Lookup(d, "signature") == Some(Text(t.signature))
  {
    [("sender", Text(t.sender)),
     ("recipient", Text(t.recipient)),
     ("amount", Number(t.amount)),
     ("signature", Text(t.signature))]
  }

  /** A present text value. */
  predicate IsText(v: Option<Value>)
  {
    v.Some? && v.value.Text?
  }

  /** A present numeric value. */
  predicate IsNumber(v: Option<Value>)
  {
    v.Some? && v.value.Number?
  }

  /** Rebuilds a transaction from a decoded dictionary, reading each field by
      its key; fails when a key is missing or holds a value of the wrong kind. */
  function FromDict(sender: Option<Value>, recipient: Option<Value>,
                    amount: Option<Value>, signature: Option<Value>): (r: Option<Transaction>)
    ensures r.Some? <==> IsText(sender) && IsText(recipient) && IsNumber(amount) && IsText(signature)
    ensures r.Some? ==>
              && sender == Some(Text(r.value.sender))
              && recipient == Some(Text(r.value.recipient))
              && amount == Some(Number(r.value.amount))
              && signature == Some(Text(r.value.signature))
  {
    match (sender, recipient, amount, signature)
    case (Some(Text(s)), Some(Text(r)), Some(Number(a)), Some(Text(g))) =>
      Some(Transaction(s, r, a, g))
    case _ => None
  }

  /** Decodes an ordered dictionary back into a transaction, reading each
      field by key: succeeds exactly when the three text keys and the amount
      key are present with values of the right kind. */
  function FromOrderedDict(d: OrderedDict): (r: Option<Transaction>)
    ensures r.Some? <==>
              && IsText(Lookup(d, "sender")) && IsText(Lookup(d, "recipient"))
              && IsNumber(Lookup(d, "amount")) && IsText(Lookup(d, "signature"))
    ensures r.Some? ==>
              && Lookup(d, "sender") == Some(Text(r.value.sender))
              && Lookup(d, "recipient") == Some(Text(r.value.recipient))
              && Lookup(d, "amount") == Some(Number(r.value.amount))
              && Lookup(d, "signature") == Some(Text(r.value.signature))
  {
    FromDict(Lookup(d, "sender"), Lookup(d, "recipient"),
             Lookup(d, "amount"), Lookup(d, "signature"))
  }

  /** The canonical encodings of a list of transactions, in order. */
  function EncodeAll(txs: seq<Transaction>): (ds: seq<OrderedDict>)
    ensures |ds| == |txs|
    ensures forall i :: 0 <= i < |txs| ==> Keys(ds[i]) == FieldOrder
    ensures forall i :: 0 <= i < |txs| ==> FromOrderedDict(ds[i]) == Some(txs[i])
  {
    seq(|txs|, i requires 0 <= i < |txs| => ToOrderedDict(txs[i]))
  }

  /** Decodes a list of ordered dictionaries, entry by entry; fails if any
      entry fails. */
  function DecodeAll(ds: seq<OrderedDict>): (r: Option<seq<Transaction>>)
    ensures r.Some? <==> forall i :: 0 <= i < |ds| ==> FromOrderedDict(ds[i]).Some?
    ensures r.Some? ==>
              && |r.value| == |ds|
              && forall i :: 0 <= i < |ds| ==> FromOrderedDict(ds[i]) == Some(r.value[i])
  {
    if forall i :: 0 <= i < |ds| ==> FromOrderedDict(ds[i]).Some? then
      Some(seq(|ds|, i requires 0 <= i < |ds| => FromOrderedDict(ds[i]).value))
    else
      None
  }

  /** The persisted form of a transaction: a plain copy of its attribute
      dictionary. */
  function SavableTx(t: Transaction): (m: map<string, Value>)
    ensures m.Keys == set k | k in FieldOrder
  {
    map["sender" := Text(t.sender),
        "recipient" := Text(t.recipient),
        "amount" := Number(t.amount),
        "signature" := Text(t.signature)]
  }

  /** Rebuilds a transaction from its persisted form, reading each field by
      key: succeeds exactly when the four keys are present with values of the
      right kind. */
  function FromSavableTx(m: map<string, Value>): (r: Option<Transaction>)
    ensures r.Some? <==>
              && "sender" in m && m["sender"].Text? && "recipient" in m && m["recipient"].Text?
              && "amount" in m && m["amount"].Number? && "signature" in m && m["signature"].Text?
    ensures r.Some? ==>
              && m["sender"] == Text(r.value.sender) && m["recipient"] == Text(r.value.recipient)
              && m["amount"] == Number(r.value.amount) && m["signature"] == Text(r.value.signature)
  {
    FromDict(if "sender" in m then Some(m["sender"]) else None,
             if "recipient" in m then Some(m["recipient"]) else None,
             if "amount" in m then Some(m["amount"]) else None,
             if "signature" in m then Some(m["signature"]) else None)
  }

  /** Decoding the canonical encoding gives back the same transaction. */
  lemma OrderedDictRoundTrip(t: Transaction)
    ensures FromOrderedDict(ToOrderedDict(t)) == Some(t)
  {
  }

  /** Distinct transactions have distinct canonical encodings. */
  lemma OrderedDictInjective(a: Transaction, b: Transaction)
    ensures ToOrderedDict(a) == ToOrderedDict(b) ==> a == b
  {
    OrderedDictRoundTrip(a);
    OrderedDictRoundTrip(b);
  }

  /** Every entry of the canonical encoding appears, with the same value, in
      the persisted copy, and the persisted copy has no other keys. */
  lemma SavableMatchesOrderedDict(t: Transaction)
    ensures forall e :: e in ToOrderedDict(t) ==> e.0 in SavableTx(t) && SavableTx(t)[e.0] == e.1
    ensures forall k :: k in SavableTx(t) ==> Lookup(ToOrderedDict(t), k) == Some(SavableTx(t)[k])
  {
    var d := ToOrderedDict(t);
    var m := SavableTx(t);
    assert m.Keys == {"sender", "recipient", "amount", "signature"};
    forall e | e in d ensures e.0 in m && m[e.0] == e.1 {
      assert e == d[0] || e == d[1] || e == d[2] || e == d[3];
    }
    forall key | key in m ensures Lookup(d, key) == Some(m[key]) {
      if key == "sender" {
      } else if key == "recipient" {
      } else if key == "amount" {
      } else {
        assert key == "signature";
      }
    }
  }

  /** Reloading the persisted copy gives back the same transaction. */
  lemma SavableRoundTrip(t: Transaction)
    ensures FromSavableTx(SavableTx(t)) == Some(t)
  {
  }

  /** Decoding a list of canonical encodings gives back the list. */
  lemma {:induction false} DecodeEncodeAll(txs: seq<Transaction>)
    ensures DecodeAll(EncodeAll(txs)) == Some(txs)
  {
    var ds := EncodeAll(txs);
    assert forall i :: 0 <= i < |ds| ==> FromOrderedDict(ds[i]) == Some(txs[i]);
    var r := DecodeAll(ds);
    assert r.Some?;
    forall i | 0 <= i < |txs| ensures r.value[i] == txs[i] {
      assert FromOrderedDict(ds[i]) == Some(r.value[i]);
    }
    assert r.value == txs;
  }
}

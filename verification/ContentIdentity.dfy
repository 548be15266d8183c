/** Content identifiers of receipts and proofs (internal/receipt/receipt.go, internal/proof/digest.go). */
module ContentIdentity {
  import opened ArtifactIdentity
  import opened Canonical
  import opened Json
  import opened RoundTrip
  import opened Selection
  import Utf8

  const ID_PREFIX := "sha256:"

  /** The canonical text the identifier protects: everything but the identifier, which is cleared and left out. */
  ghost function ContentId(lib: Library, fields: map<string, Value>): string
    requires Printable(Obj(fields))
  {
    ID_PREFIX + lib.sha256(Utf8.Encode(Print(Obj(fields))))
  }

  /** The identifier belongs to the fields. */
  ghost predicate Accepted(lib: Library, id: string, fields: map<string, Value>) {
    Printable(Obj(fields)) && id == ContentId(lib, fields)
  }

  /** A receipt or proof: its identifier, and its other fields as JSON. */
  class Document {
    var id: string
    const fields: map<string, Value>

    constructor (id: string, fields: map<string, Value>)
      ensures this.id == id && this.fields == fields
    {
      this.id, this.fields := id, fields;
    }

    /** `AssignID`: whatever identifier was there before makes no difference. */
    method AssignId(lib: Library) returns (ok: bool)
      modifies this`id
      ensures ok <==> Printable(Obj(fields))
      ensures if ok then Accepted(lib, id, fields) else id == old(id)
    {
      var encoded := new Buffer();
      ok := AppendValue(encoded, Obj(fields));
      if ok {
        assert encoded.text == Print(Obj(fields));
        id := ID_PREFIX + lib.sha256(Utf8.Encode(encoded.text));
      }
    }

    /** `VerifyID`, on a copy. */
    method VerifyId(lib: Library) returns (ok: bool)
      ensures ok <==> Accepted(lib, id, fields)
    {
      var clone := new Document(id, fields);
      var given := clone.AssignId(lib);
      ok := given && clone.id == id;
    }
  }

  /** One identifier, one content. */
  lemma {:induction false} EqualIdsEqualFields(lib: Library, id: string, a: map<string, Value>, b: map<string, Value>)
    requires InjectiveHash(lib.sha256) && Accepted(lib, id, a) && Accepted(lib, id, b)
    ensures a == b
  {
    var x, y := Utf8.Encode(Print(Obj(a))), Utf8.Encode(Print(Obj(b)));
    assert (ID_PREFIX + lib.sha256(x))[|ID_PREFIX|..] == lib.sha256(x);
    assert (ID_PREFIX + lib.sha256(y))[|ID_PREFIX|..] == lib.sha256(y);
    Utf8.EncodeInjective(Print(Obj(a)), Print(Obj(b)));
    PrintInjective(Obj(a), Obj(b));
  }
}

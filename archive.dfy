/** The archive boundary the classifier reads: a list of member names and the bytes of each member.
    This is the dictionary-backed archive of the test suite (`FakeZipFile`); a real zip file offers
    the same two operations. */
module Archive {
  import opened Wrappers

  newtype byte = x: int | 0 <= x < 256
  type Bytes = seq<byte>

  /** The archive's members in dictionary insertion order, each with its contents. */
  datatype ZipArchive = ZipArchive(entries: seq<(string, Bytes)>) {

    /** A dictionary holds each key once. */
    predicate Valid()
    {
      forall i, j :: 0 <= i < j < |entries| ==> entries[i].0 != entries[j].0
    }

    /** `namelist()`: the keys in insertion order. */
    function Namelist(): (names: seq<string>)
      ensures |names| == |entries|
      ensures forall i :: 0 <= i < |entries| ==> names[i] == entries[i].0
    {
      seq(|entries|, i requires 0 <= i < |entries| => entries[i].0)
    }

    /** `read(path)`: the stored contents, or `None` (Python's `KeyError`) for a name that is not a key. */
    function Read(path: string): (r: Option<Bytes>)
      ensures r.Some? <==> path in Namelist()
      ensures r.Some? ==> (path, r.value) in entries
    {
      Lookup(entries, path)
    }
  }

  /** First entry stored under `key`. */
  function Lookup(entries: seq<(string, Bytes)>, key: string): (r: Option<Bytes>)
    ensures r.None? <==> forall i :: 0 <= i < |entries| ==> entries[i].0 != key
    ensures r.Some? ==> exists i :: 0 <= i < |entries| && entries[i] == (key, r.value)
                          && forall j :: 0 <= j < i ==> entries[j].0 != key
  {
    if |entries| == 0 then None
    else if entries[0].0 == key then Some(entries[0].1)
    else
      var r := Lookup(entries[1..], key);
      assert r.Some? ==> exists i :: 1 <= i < |entries| && entries[i] == (key, r.value)
                           && forall j :: 0 <= j < i ==> entries[j].0 != key by {
        if r.Some? {
          var i :| 0 <= i < |entries[1..]| && entries[1..][i] == (key, r.value)
                   && forall j :: 0 <= j < i ==> entries[1..][j].0 != key;
          assert entries[i + 1] == (key, r.value);
          assert forall j :: 1 <= j < i + 1 ==> entries[j].0 == entries[1..][j - 1].0;
        }
      }
      r
  }

  /** In a valid archive, reading a listed name gives back exactly what is stored under it. */
  lemma ReadReturnsStored(zf: ZipArchive, i: nat)
    requires zf.Valid()
    requires i < |zf.entries|
    ensures zf.Read(zf.entries[i].0) == Some(zf.entries[i].1)
  {
    var r := zf.Read(zf.entries[i].0);
    var k :| 0 <= k < |zf.entries| && zf.entries[k] == (zf.entries[i].0, r.value)
             && forall j :: 0 <= j < k ==> zf.entries[j].0 != zf.entries[i].0;
    assert k == i;
  }
}

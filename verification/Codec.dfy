/**
 The writer and the reader together.
 */
module Codec {
  import opened Bytes
  import opened LuaValue
  import opened Format
  import opened RoundTrip
  import opened Storable
  import opened WriteValue
  import opened Reader

  /** A value of supported types is written exactly if its strings and key lists fit;
      it is read back exactly if its tables do; and what is read back lies on the stack
      with the contents the value had exactly if besides every table taken for an array
      is one. */
  method StoreAndLoad(v: LValue, L: LuaState) returns (written: Status, read: Status, data: seq<byte>)
    requires Valid(v)
    modifies L
    ensures written == StatusOf(EncodeFile(v))
    ensures written == True ==> data == EncodeFile(v).bytes
    ensures Supported(v) ==> (written == True <==> |Strings(v)| <= MAXNODES && Listable(v)) && written != False
    ensures written == True ==> read == if Loadable(v) then True else Error
    ensures written == True && read == True ==>
              && |L.stack| == |old(L.stack)| + 1 && old(L.stack) <= L.stack
              && (L.stack[|old(L.stack)|] == Content(v) <==> Lossless(v))
    ensures written != True ==> L.stack == old(L.stack)
  {
    hide Valid, Supported, Lossless, Loadable, Listable, Strings, Content, EncodeFile, ParseFile;
    ghost var copied;
    written, data, copied := WriteBinaryTable(v);
    if Supported(v) {
      StorableIff(v);
    }
    read := False;
    if written == True {
      RoundTripIff(v, []);
      assert data + [] == data;
      var results;
      read, results := ParseBinaryTable(L, data);
    }
  }
}

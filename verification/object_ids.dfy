/**
 The id handling of the controllers: `ObjectId.isValid` on a route parameter,
 `new ObjectId(id)`, and the users controller's `normalizeId`, which converts a
 valid id and keeps any other string as it is.
 */
module ObjectIds {
  import opened Documents

  predicate IsHexDigit(c: char) {
    ('0' <= c <= '9') || ('a' <= c <= 'f') || ('A' <= c <= 'F')
  }

  /** `ObjectId.isValid` on a string: exactly 24 hexadecimal digits. */
  predicate IsValid(id: string) {
    |id| == 24 && forall i :: 0 <= i < |id| ==> IsHexDigit(id[i])
  }

  function LowerHexDigit(c: char): (r: char)
    ensures IsHexDigit(c) ==> IsHexDigit(r) && !('A' <= r <= 'F')
    ensures ('0' <= c <= '9') || ('a' <= c <= 'f') ==> r == c
  {
    if 'A' <= c <= 'F' then (c as int - 'A' as int + 'a' as int) as char else c
  }

  /** The hex string an ObjectId prints as: the same digits in lower case. */
  function Canonical(id: string): (r: string)
    ensures |r| == |id|
    ensures forall i :: 0 <= i < |id| ==> r[i] == LowerHexDigit(id[i])
  {
    seq(|id|, i requires 0 <= i < |id| => LowerHexDigit(id[i]))
  }

  /** `new ObjectId(id)` for an id that passed `ObjectId.isValid`. */
  function ToObjectKey(id: string): (k: Key)
    requires IsValid(id)
    ensures k.ObjectKey? && IsValid(k.hex)
    ensures forall i :: 0 <= i < |k.hex| ==> !('A' <= k.hex[i] <= 'F')
  {
    ObjectKey(Canonical(id))
  }

  /** `normalizeId` (controllers/users.js): a valid id becomes an ObjectId, any other
      string is used as the `_id` unchanged. */
  function NormalizeId(id: string): (k: Key)
    ensures k.ObjectKey? <==> IsValid(id)
    ensures k.StringKey? ==> k.raw == id
    ensures k.ObjectKey? ==> k == ToObjectKey(id)
  {
    if IsValid(id) then ToObjectKey(id) else StringKey(id)
  }

  /** Two route ids reach the same document exactly when they are the same string,
      or both are valid ObjectIds spelling the same digits up to letter case. */
  lemma NormalizeIdSameKey(a: string, b: string)
    ensures NormalizeId(a) == NormalizeId(b) <==>
      (a == b || (IsValid(a) && IsValid(b) && Canonical(a) == Canonical(b)))
  {
    if IsValid(a) && !IsValid(b) {
      assert NormalizeId(a).ObjectKey? && NormalizeId(b).StringKey?;
    }
  }
}

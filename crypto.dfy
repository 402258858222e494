/** The `enc:` wrapper around stored secrets. The symmetric cipher itself is a
    parameter: `seal` turns plain text into a token, `open` turns a token back
    into plain text or reports an invalid token with `None`. */
module Crypto {
  import opened Wrappers
  import Text

  const Prefix: string := "enc:"

  /** `is_encrypted` */
  predicate IsEncrypted(value: string) {
    Text.StartsWith(value, Prefix)
  }

  /** `encrypt_value` */
  function EncryptValue(value: Option<string>, seal: string -> string): (r: Option<string>)
    ensures value.None? <==> r.None?
    ensures value == Some("") ==> r == Some("")
    ensures value.Some? && IsEncrypted(value.value) ==> r == value
    ensures value.Some? && value.value != "" && !IsEncrypted(value.value) ==>
      r == Some(Prefix + seal(value.value))
  {
    match value
    case None => None
    case Some(v) =>
      if v == "" then Some("")
      else if IsEncrypted(v) then Some(v)
      else Some(Prefix + seal(v))
  }

  /** `decrypt_value`; `Failure` is the ValueError "Invalid encrypted value". */
  function DecryptValue(value: Option<string>, open: string -> Option<string>): (r: Result<Option<string>, string>)
    ensures value.Some? && !IsEncrypted(value.value) ==> r == Success(value)
    ensures value.None? ==> r == Success(None)
    ensures r.Failure? ==> r.error == "Invalid encrypted value"
    ensures r.Failure? <==> value.Some? && IsEncrypted(value.value) && open(value.value[|Prefix|..]).None?
    ensures value.Some? && IsEncrypted(value.value) && open(value.value[|Prefix|..]).Some? ==>
      r == Success(open(value.value[|Prefix|..]))
  {
    match value
    case None => Success(None)
    case Some(v) =>
      if v == "" then Success(Some(""))
      else if !IsEncrypted(v) then Success(Some(v))
      else
        match open(v[|Prefix|..])
        case Some(plain) => Success(Some(plain))
        case None => Failure("Invalid encrypted value")
  }

  /** Encrypting an already encrypted value changes nothing. */
  lemma EncryptIdempotent(value: Option<string>, seal: string -> string)
    ensures EncryptValue(EncryptValue(value, seal), seal) == EncryptValue(value, seal)
  {
    if value.Some? && value.value != "" && !IsEncrypted(value.value) {
      var c := Prefix + seal(value.value);
      assert c[..|Prefix|] == Prefix;
    }
  }

  /** With a cipher whose `open` undoes `seal`, decryption undoes encryption for
      every value that does not already look encrypted. */
  lemma DecryptEncrypt(value: Option<string>, seal: string -> string, open: string -> Option<string>)
    requires forall plain :: open(seal(plain)) == Some(plain)
    requires value.Some? ==> !IsEncrypted(value.value)
    ensures DecryptValue(EncryptValue(value, seal), open) == Success(value)
  {
    if value.Some? && value.value != "" {
      var c := Prefix + seal(value.value);
      assert c[..|Prefix|] == Prefix;
      assert c[|Prefix|..] == seal(value.value);
    }
  }
}

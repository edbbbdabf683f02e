/** Which sequence numbers of a flock can be minted, and what the mint handler hands the allocator. */
module Minting {
  import opened Wrappers
  import opened Schema
  import Codes
  import Codec
  import Profanity
  import Store

  /** The closure of the mint handler: the code, unless encoding fails or it spells something rude. */
  function MintCode(codec: Codec.DuckCodec, generation: nat, flock: string, s: nat): Option<string>
    requires Codec.Valid(codec) && Codes.IsFlockCode(flock)
  {
    if !Codes.IsSeq(s) then None
    else
      match Codec.Encode(codec, generation, flock, s)
      case Err(_) => None
      case Ok(code) => if Profanity.Matches(code) then None else Some(code)
  }

  function Encoder(codec: Codec.DuckCodec, generation: nat, flock: string): nat -> Option<string>
    requires Codec.Valid(codec) && Codes.IsFlockCode(flock)
  {
    (s: nat) => MintCode(codec, generation, flock, s)
  }

  datatype MintError = NoSuchFlock | BadKey | Failed(error: RepoError)

  /** The mint handler: the flock must be the user's, its key must work, then the batch is allocated. */
  function MintRequest(codec: Codec.DuckCodec, db: Db, user: Id, f: Id, count: nat)
    : (Result<seq<Store.Entry>, MintError>, Db)
    requires Codec.Valid(codec)
  {
    if f !in db.flocks || db.flocks[f].owner != user then (Err(NoSuchFlock), db)
    else
      var flock := db.flocks[f];
      if !Codes.IsFlockCode(flock.code) then (Err(Failed(Corrupt("flock"))), db)
      else if Codec.Encode(codec, flock.generation, flock.code, 1).Err? then (Err(BadKey), db)
      else
        match Store.MintBatch(db, f, count, Encoder(codec, flock.generation, flock.code))
        case (Ok(entries), after) => (Ok(entries), after)
        case (Err(e), _) => (Err(Failed(e)), db)
  }

  /** After the key preflight on number 1, a skipped number is always a profane one. */
  lemma {:induction false} SkippedIsProfane(codec: Codec.DuckCodec, generation: nat, flock: string, s: nat)
    requires Codec.Valid(codec) && Codes.IsFlockCode(flock) && Codes.IsSeq(s)
    requires Codec.Encode(codec, generation, flock, 1).Ok?
    ensures Codec.Encode(codec, generation, flock, s).Ok?
    ensures MintCode(codec, generation, flock, s).None?
            <==> Profanity.Matches(Codec.Encode(codec, generation, flock, s).value)
  {
  }

  /** Codes handed out for different (prefix, number) pairs differ. */
  lemma {:induction false} MintCodesDiffer(codec: Codec.DuckCodec, g1: nat, f1: string, s1: nat, g2: nat, f2: string,
                                           s2: nat)
    requires Codec.Valid(codec) && Codes.IsFlockCode(f1) && Codes.IsFlockCode(f2)
    requires f1 == f2 ==> g1 == g2
    requires MintCode(codec, g1, f1, s1).Some? && MintCode(codec, g1, f1, s1) == MintCode(codec, g2, f2, s2)
    ensures f1 == f2 && s1 == s2
  {
    hide Codec.Encode, Profanity.Matches;
    MintCodeShape(codec, g1, f1, s1);
    MintCodeShape(codec, g2, f2, s2);
    Codec.EncodeInjective(codec, g1, f1, s1, g2, f2, s2);
  }

  lemma {:induction false} MintCodeShape(codec: Codec.DuckCodec, g: nat, f: string, s: nat)
    requires Codec.Valid(codec) && Codes.IsFlockCode(f) && MintCode(codec, g, f, s).Some?
    ensures Codes.IsSeq(s) && g in codec.ciphers
    ensures Codec.Encode(codec, g, f, s) == Ok(MintCode(codec, g, f, s).value)
    ensures var code := MintCode(codec, g, f, s).value;
            Codes.IsDuckCode(code) && Codes.FlockOf(code) == f && Codec.Decode(codec, g, code) == Ok(s)
  {
    hide Codec.Decode, Codes.IsDuckCode, Codes.FlockOf, Profanity.Matches;
    Codec.EncodeShape(codec, g, f, s);
    Codec.DecodeEncode(codec, g, f, s);
  }
}

/** The credential store behind signature checks (internal/auth/credentials.go). */
module Credentials {
  import opened Bytes

  datatype Status = Active | Disabled

  datatype Credential = Credential(
    secretHash: Str,
    previousHash: Str,
    previousUntil: int,
    status: Status,
    createdAt: int,
    rotatedAt: int,
    secret: Str,
    previousSecret: Str)

  type Creds = map<Str, Credential>

  datatype Reply = Ok | InvalidInput | AlreadyExists | NotFound | BootstrapDone

  /** The secrets a signature may be made with, newest first. */
  function Secrets(rec: Credential, at: int): seq<Str> {
    [rec.secret] + if rec.previousSecret != [] && at < rec.previousUntil then [rec.previousSecret] else []
  }

  /** Hashes belong to the secrets they stand for, and no secret is empty. */
  ghost predicate CredsOk(hash: Str -> Str, creds: Creds) {
    forall id :: id in creds ==>
      var rec := creds[id];
      && rec.secret != [] && rec.secretHash == hash(rec.secret)
      && (rec.previousSecret != [] ==> rec.previousHash == hash(rec.previousSecret))
  }

  function Rotated(hash: Str -> Str, rec: Credential, secret: Str, overlap: int, now: int): Credential {
    rec.(previousHash := rec.secretHash, previousSecret := rec.secret, previousUntil := now + overlap,
         secret := secret, secretHash := hash(secret), rotatedAt := now)
  }

  class CredentialStore {
    const hash: Str -> Str
    var creds: Creds

    constructor (hash: Str -> Str)
      ensures this.hash == hash && creds == map[] && CredsOk(hash, creds)
    {
      this.hash := hash;
      creds := map[];
    }

    method Bootstrap(id: Str, secret: Str, now: int) returns (reply: Reply)
      requires CredsOk(hash, creds)
      modifies this`creds
      ensures CredsOk(hash, creds)
      ensures reply == (if id == [] || secret == [] then InvalidInput
                        else if old(creds) != map[] then BootstrapDone else Ok)
      ensures reply != Ok ==> creds == old(creds)
      ensures reply == Ok ==>
                creds.Keys == {id} && creds[id].status == Active && forall at :: Secrets(creds[id], at) == [secret]
    {
      if id == [] || secret == [] {
        return InvalidInput;
      }
      if |creds| != 0 {
        return BootstrapDone;
      }
      creds := creds[id := Credential(hash(secret), [], 0, Active, now, 0, secret, [])];
      reply := Ok;
    }

    method Create(id: Str, secret: Str, now: int) returns (reply: Reply)
      requires CredsOk(hash, creds)
      modifies this`creds
      ensures CredsOk(hash, creds)
      ensures reply == (if id == [] || secret == [] then InvalidInput
                        else if id in old(creds) then AlreadyExists else Ok)
      ensures reply != Ok ==> creds == old(creds)
      ensures reply == Ok ==>
                && id in creds && creds - {id} == old(creds) && creds[id].status == Active
                && forall at :: Secrets(creds[id], at) == [secret]
    {
      if id == [] || secret == [] {
        return InvalidInput;
      }
      if id in creds {
        return AlreadyExists;
      }
      creds := creds[id := Credential(hash(secret), [], 0, Active, now, 0, secret, [])];
      reply := Ok;
    }

    /** The new secret counts at once, the replaced one until the overlap ends, and any
        older one no longer; the status is kept. */
    method Rotate(id: Str, secret: Str, overlap: int, now: int) returns (reply: Reply)
      requires CredsOk(hash, creds)
      modifies this`creds
      ensures CredsOk(hash, creds)
      ensures reply == (if id == [] || secret == [] then InvalidInput else if id !in old(creds) then NotFound else Ok)
      ensures reply != Ok ==> creds == old(creds)
      ensures reply == Ok ==> creds == old(creds)[id := Rotated(hash, old(creds)[id], secret, overlap, now)]
      ensures reply == Ok ==>
                forall at :: Secrets(creds[id], at) ==
                             [secret] + if at < now + overlap then [old(creds)[id].secret] else []
    {
      if id == [] || secret == [] {
        return InvalidInput;
      }
      if id !in creds {
        return NotFound;
      }
      var rec := creds[id];
      rec := rec.(previousHash := rec.secretHash);
      rec := rec.(previousSecret := rec.secret);
      rec := rec.(previousUntil := now + overlap);
      rec := rec.(secret := secret);
      rec := rec.(secretHash := hash(secret));
      rec := rec.(rotatedAt := now);
      creds := creds[id := rec];
      reply := Ok;
    }

    method SetStatus(id: Str, status: Status) returns (reply: Reply)
      requires CredsOk(hash, creds)
      modifies this`creds
      ensures CredsOk(hash, creds)
      ensures reply == if id in old(creds) then Ok else NotFound
      ensures creds == if reply == Ok then old(creds)[id := old(creds)[id].(status := status)] else old(creds)
    {
      if id !in creds {
        return NotFound;
      }
      creds := creds[id := creds[id].(status := status)];
      reply := Ok;
    }

    method ResolveSecrets(id: Str, at: int) returns (secrets: seq<Str>, known: bool, active: bool)
      ensures known <==> id in creds
      ensures active <==> id in creds && creds[id].status == Active
      ensures secrets == if active then Secrets(creds[id], at) else []
    {
      if id !in creds {
        return [], false, false;
      }
      var rec := creds[id];
      if rec.status != Active {
        return [], true, false;
      }
      secrets := [rec.secret];
      if rec.previousSecret != [] && at < rec.previousUntil {
        secrets := secrets + [rec.previousSecret];
      }
      known, active := true, true;
    }

    /** A secret is accepted exactly when it hashes like one that may sign. */
    method VerifySecret(id: Str, secret: Str, at: int) returns (ok: bool)
      requires CredsOk(hash, creds)
      ensures ok <==> id in creds && creds[id].status == Active &&
                      exists s :: s in Secrets(creds[id], at) && hash(s) == hash(secret)
    {
      if id !in creds || creds[id].status != Active {
        return false;
      }
      var rec := creds[id];
      ghost var all := Secrets(rec, at);
      assert all[0] == rec.secret && rec.secret in all;
      assert rec.previousSecret != [] && at < rec.previousUntil ==>
          all[1] == rec.previousSecret && rec.previousSecret in all;
      if hash(secret) == rec.secretHash {
        return true;
      }
      if rec.previousSecret != [] && at < rec.previousUntil && hash(secret) == rec.previousHash {
        return true;
      }
      ok := false;
    }
  }
}

/** The BoltDB transaction repository of package repository, with the bucket as a map from
    the identifier's string form to the stored transaction. The JSON encoding of a record is
    taken to be lossless, so a stored value is the transaction itself. */
module Repository {
  import opened Wrappers
  import opened Text
  import opened Errors
  import opened TransactionDomain

  /** `ValidateTransactionRepositoryBoltDB`: both the path and the bucket name are mandatory. */
  function ValidateTransactionRepositoryBoltDB(pathToDB: string, bucketName: string): (r: Option<Error>)
    ensures r.Some? <==> pathToDB == [] || bucketName == []
    ensures r.Some? ==> r.value == PathToDBAndBucketNameIsMandatory
  {
    if pathToDB == "" || bucketName == "" then Some(PathToDBAndBucketNameIsMandatory) else None
  }

  /** What `FindTransaction` answers for a bucket in a given state. */
  function Lookup(bucketExists: bool, bucket: map<Uuid, Transaction>, id: Uuid): (r: Result<Transaction, Error>)
    ensures r.Ok? <==> bucketExists && id in bucket
    ensures r.Ok? ==> r.value == bucket[id]
    ensures r == Err(BucketNotFound) <==> !bucketExists
    ensures r == Err(TransactionNotFound) <==> bucketExists && id !in bucket
  {
    if !bucketExists then Err(BucketNotFound)
    else if id !in bucket then Err(TransactionNotFound)
    else Ok(bucket[id])
  }

  /** `bucket.Put` under the transaction's identifier. */
  function Put(bucket: map<Uuid, Transaction>, t: Transaction): (r: map<Uuid, Transaction>)
    ensures r.Keys == bucket.Keys + {t.id}
    ensures r[t.id] == t
    ensures forall k :: k in bucket && k != t.id ==> r[k] == bucket[k]
  {
    bucket[t.id := t]
  }

  /** The bucket after saving the transactions one after the other. */
  function PutAll(bucket: map<Uuid, Transaction>, ts: seq<Transaction>): map<Uuid, Transaction>
    decreases |ts|
  {
    if ts == [] then bucket else Put(PutAll(bucket, ts[..|ts| - 1]), ts[|ts| - 1])
  }

  /** A saved transaction is found again. */
  lemma FindAfterSave(bucket: map<Uuid, Transaction>, t: Transaction)
    ensures Lookup(true, Put(bucket, t), t.id) == Ok(t)
  {
  }

  /** After a sequence of saves every saved identifier maps to the last transaction saved
      under it. */
  lemma {:induction false} LastSaveWins(bucket: map<Uuid, Transaction>, ts: seq<Transaction>, i: nat)
    requires i < |ts|
    requires forall j :: i < j < |ts| ==> ts[j].id != ts[i].id
    ensures Lookup(true, PutAll(bucket, ts), ts[i].id) == Ok(ts[i])
    decreases |ts|
  {
    if i < |ts| - 1 {
      var prefix := ts[..|ts| - 1];
      assert forall j :: i < j < |prefix| ==> prefix[j] == ts[j];
      LastSaveWins(bucket, prefix, i);
    }
  }

  /** Identifiers that no save in the sequence touches keep their previous answer. */
  lemma {:induction false} UnsavedKeysUnchanged(bucket: map<Uuid, Transaction>, ts: seq<Transaction>, id: Uuid)
    requires forall j :: 0 <= j < |ts| ==> ts[j].id != id
    ensures Lookup(true, PutAll(bucket, ts), id) == Lookup(true, bucket, id)
    decreases |ts|
  {
    if ts != [] {
      UnsavedKeysUnchanged(bucket, ts[..|ts| - 1], id);
    }
  }

  class TransactionRepositoryBoltDB {
    /** The contents of the transactions bucket. */
    var bucket: map<Uuid, Transaction>
    /** Whether the bucket exists in the database file; other code working on the same file
        can delete it. */
    var bucketExists: bool
    const pathToDB: string
    const bucketName: string

    /** Opening the database: `CreateBucketIfNotExists` leaves an existing bucket's contents,
        which `existing` stands for (empty for a new bucket). */
    constructor (pathToDB: string, bucketName: string, existing: map<Uuid, Transaction>)
      ensures this.pathToDB == pathToDB && this.bucketName == bucketName
      ensures bucket == existing && bucketExists
    {
      this.pathToDB := pathToDB;
      this.bucketName := bucketName;
      bucket := existing;
      bucketExists := true;
    }

    /** `SaveTransaction`: without the bucket it fails and changes nothing; otherwise it
        writes the transaction under its identifier, overwriting, and leaves all other keys. */
    method SaveTransaction(t: Transaction) returns (err: Option<Error>)
      modifies this`bucket
      ensures !bucketExists ==> err == Some(BucketNotFound) && bucket == old(bucket)
      ensures bucketExists ==> err == None && bucket == Put(old(bucket), t)
    {
      if !bucketExists {
        return Some(BucketNotFound);
      }
      bucket := bucket[t.id := t];
      err := None;
    }

    /** `FindTransaction`. */
    method FindTransaction(id: Uuid) returns (r: Result<Transaction, Error>)
      ensures r == Lookup(bucketExists, bucket, id)
    {
      if !bucketExists {
        return Err(BucketNotFound);
      }
      if id !in bucket {
        return Err(TransactionNotFound);
      }
      r := Ok(bucket[id]);
    }
  }

  /** `NewTransactionRepositoryBoltDB`: the path and bucket name are trimmed, then validated.
      Creating the directory and opening the file are outside the model. */
  method NewTransactionRepositoryBoltDB(pathToDB: string, bucketName: string, existing: map<Uuid, Transaction>)
    returns (repo: TransactionRepositoryBoltDB?, err: Option<Error>)
    ensures err == ValidateTransactionRepositoryBoltDB(TrimSpace(pathToDB), TrimSpace(bucketName))
    ensures err.Some? <==> AllSpace(pathToDB) || AllSpace(bucketName)
    ensures repo == null <==> err.Some?
    ensures repo != null ==> && fresh(repo)
                             && repo.pathToDB == TrimSpace(pathToDB) && repo.bucketName == TrimSpace(bucketName)
                             && repo.bucket == existing && repo.bucketExists
  {
    var path := TrimSpace(pathToDB);
    var name := TrimSpace(bucketName);
    err := ValidateTransactionRepositoryBoltDB(path, name);
    if err.Some? {
      return null, err;
    }
    repo := new TransactionRepositoryBoltDB(path, name, existing);
  }
}

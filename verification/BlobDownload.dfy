/**
  The resumable download of OCI blobs.

  Files are maps from the hexadecimal digest that names them to their content.  The checksum,
  containerd's content store, its ingest directory and every network transfer are arbitrary
  parameters.  A blob's retry loop has no bound of its own, so a run takes the transfers that
  happened before it was killed; a run that has not returned by then is unfinished.
 */
module BlobDownload {
  import opened Wrappers

  type Byte = bv8
  type Content = seq<Byte>
  type Hex = string
  type Checksum = Content -> Hex

  /** What one transfer makes of the partial file it finds. */
  type Transfer = Content -> Content

  datatype Blob = Blob(hex: Hex, size: nat)

  /** The output of the content-store query, also when it fails, and the ingest data file if any. */
  datatype Environment = Environment(queryOk: bool, queryOutput: Content, ingest: Option<Content>, transfers: seq<Transfer>)

  datatype Files = Files(finals: map<Hex, Content>, partials: map<Hex, Content>, candidates: map<Hex, Content>)

  predicate Verified(sha: Checksum, blob: Blob, c: Content) {
    |c| == blob.size && sha(c) == blob.hex
  }

  predicate Complete(sha: Checksum, files: Files, blob: Blob) {
    blob.hex in files.finals && Verified(sha, blob, files.finals[blob.hex])
  }

  // ----- The retry loop -----

  /** Where a retry loop has got to: the partial file, whether the loop has seen it verified, the
      bytes all transfers added, and how often a checksum mismatch threw the partial away. */
  datatype Progress = Progress(partial: Content, finished: bool, fetched: int, resets: nat)

  function Retry(sha: Checksum, blob: Blob, partial: Content, transfers: seq<Transfer>): Progress
    decreases |transfers|
  {
    if Verified(sha, blob, partial) then Progress(partial, true, 0, 0)
    else if transfers == [] then Progress(partial, false, 0, 0)
    else
      var reset := |partial| == blob.size;
      var base := if reset then [] else partial;
      var next := transfers[0](base);
      var rest := Retry(sha, blob, next, transfers[1..]);
      Progress(rest.partial, rest.finished,
               rest.fetched + |next| - |base|, rest.resets + if reset then 1 else 0)
  }

  /** The partial file the loop starts from. */
  function StartingPartial(files: Files, blob: Blob, ingest: Option<Content>): Content {
    var found := if blob.hex in files.partials then files.partials[blob.hex] else [];
    var saved := if ingest.Some? && |ingest.value| > |found| then ingest.value else found;
    if |saved| > blob.size then [] else saved
  }

  function Without<T>(m: map<Hex, T>, hex: Hex): map<Hex, T> {
    map h | h in m && h != hex :: m[h]
  }

  /** The files after one run of the download of a blob, and whether that run returned. */
  function Download(sha: Checksum, files: Files, blob: Blob, env: Environment): (Files, bool) {
    var hex := blob.hex;
    if Complete(sha, files, blob) then (files, true)
    else if env.queryOk && Verified(sha, blob, env.queryOutput) then
      (files.(finals := files.finals[hex := env.queryOutput], candidates := Without(files.candidates, hex)), true)
    else
      var p := Retry(sha, blob, StartingPartial(files, blob, env.ingest), env.transfers);
      var cleared := files.(candidates := Without(files.candidates, hex));
      if p.finished then
        (cleared.(finals := files.finals[hex := p.partial], partials := Without(files.partials, hex)), true)
      else
        (cleared.(partials := files.partials[hex := p.partial]), false)
  }

  /** A manifest entry with the environment its download meets. */
  datatype Item = Item(blob: Blob, env: Environment)

  /** The loop over the config and the layers: it goes on to the next blob when one returns. */
  function DownloadAll(sha: Checksum, files: Files, items: seq<Item>): (Files, bool)
    decreases |items|
  {
    if items == [] then (files, true)
    else
      var (files', done) := Download(sha, files, items[0].blob, items[0].env);
      if done then DownloadAll(sha, files', items[1..]) else (files', false)
  }

  /** The manifest stage.  The expected digest comes from the image index, or is computed from the
      manifest itself when the registry returned no index; a mismatch stops the script. */
  function InstallManifest(sha: Checksum, files: Files, manifest: Content, indexDigest: Option<Hex>): Option<Files> {
    var digest := if indexDigest.Some? then indexDigest.value else sha(manifest);
    if manifest == [] || sha(manifest) != digest then None
    else Some(files.(finals := files.finals[digest := manifest]))
  }

  // ----- The program -----

  class BlobStore {
    const sha: Checksum
    var finals: map<Hex, Content>
    var partials: map<Hex, Content>
    var candidates: map<Hex, Content>

    function Snapshot(): Files
      reads this
    {
      Files(finals, partials, candidates)
    }

    constructor (sha: Checksum, files: Files)
      ensures this.sha == sha && Snapshot() == files
    {
      this.sha := sha;
      finals, partials, candidates := files.finals, files.partials, files.candidates;
    }

    /** Prepares the partial file: a longer ingest file replaces it, an oversized one is discarded. */
    method PreparePartial(blob: Blob, ingest: Option<Content>)
      modifies this`partials
      ensures partials == old(partials)[blob.hex := StartingPartial(old(Snapshot()), blob, ingest)]
    {
      var hex := blob.hex;
      if ingest.Some? {
        var currentSize := if hex in partials then |partials[hex]| else 0;
        if |ingest.value| > currentSize {
          partials := partials[hex := ingest.value];
        }
      }
      if hex in partials && |partials[hex]| > blob.size {
        partials := Without(partials, hex);
      }
      if hex !in partials {
        partials := partials[hex := []];
      }
    }

    /** The retry loop: check a partial of full size, throw it away if it is wrong, transfer, repeat. */
    method TransferUntilVerified(blob: Blob, transfers: seq<Transfer>) returns (done: bool)
      requires blob.hex in partials
      modifies this`finals, this`partials
      ensures var p := Retry(sha, blob, old(partials[blob.hex]), transfers);
              && done == p.finished
              && finals == (if done then old(finals)[blob.hex := p.partial] else old(finals))
              && partials == (if done then Without(old(partials), blob.hex) else old(partials)[blob.hex := p.partial])
    {
      var hex := blob.hex;
      ghost var end := Retry(sha, blob, partials[hex], transfers);
      var attempt := 0;
      while true
        invariant 0 <= attempt <= |transfers|
        invariant hex in partials && partials == old(partials)[hex := partials[hex]]
        invariant finals == old(finals)
        invariant var p := Retry(sha, blob, partials[hex], transfers[attempt..]);
                  p.partial == end.partial && p.finished == end.finished
        decreases |transfers| - attempt
      {
        if |partials[hex]| == blob.size && sha(partials[hex]) == hex {
          finals := finals[hex := partials[hex]];
          partials := Without(partials, hex);
          assert partials == Without(old(partials), hex);
          return true;
        }
        if attempt == |transfers| {
          return false; // killed while still downloading
        }
        assert transfers[attempt..][1..] == transfers[attempt + 1..];
        if |partials[hex]| == blob.size {
          partials := partials[hex := []];
        }
        partials := partials[hex := transfers[attempt](partials[hex])];
        attempt := attempt + 1;
      }
    }

    method DownloadBlob(blob: Blob, env: Environment) returns (done: bool)
      modifies this
      ensures (Snapshot(), done) == Download(sha, old(Snapshot()), blob, env)
    {
      var hex := blob.hex;
      if hex in finals && |finals[hex]| == blob.size && sha(finals[hex]) == hex {
        return true;
      }
      candidates := candidates[hex := env.queryOutput];
      if env.queryOk && |candidates[hex]| == blob.size && sha(candidates[hex]) == hex {
        finals := finals[hex := candidates[hex]];
        candidates := Without(candidates, hex);
        assert candidates == Without(old(candidates), hex);
        return true;
      }
      candidates := Without(candidates, hex);
      assert candidates == Without(old(candidates), hex);
      PreparePartial(blob, env.ingest);
      assert Without(partials, hex) == Without(old(partials), hex);
      done := TransferUntilVerified(blob, env.transfers);
      assert hex in partials ==> partials == old(partials)[hex := partials[hex]];
    }

    method DownloadBlobs(items: seq<Item>) returns (done: bool)
      modifies this
      ensures (Snapshot(), done) == DownloadAll(sha, old(Snapshot()), items)
    {
      for k := 0 to |items|
        invariant DownloadAll(sha, Snapshot(), items[k..]) == DownloadAll(sha, old(Snapshot()), items)
      {
        assert items[k..][0] == items[k] && items[k..][1..] == items[k + 1..];
        var returned := DownloadBlob(items[k].blob, items[k].env);
        if !returned {
          return false;
        }
      }
      return true;
    }
  }
}

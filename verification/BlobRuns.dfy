/** What the download promises, whatever containerd, the ingest directory and the network do. */
module BlobRuns {
  import opened Wrappers
  import opened BlobDownload

  // ----- Integrity -----

  lemma {:induction false} RetryIsSound(sha: Checksum, blob: Blob, partial: Content, transfers: seq<Transfer>)
    ensures var p := Retry(sha, blob, partial, transfers);
            p.finished <==> Verified(sha, blob, p.partial)
    decreases |transfers|
  {
    if !Verified(sha, blob, partial) && transfers != [] {
      RetryIsSound(sha, blob, transfers[0](if |partial| == blob.size then [] else partial), transfers[1..]);
    }
  }

  predicate SameAt<T(==)>(m: map<Hex, T>, m': map<Hex, T>, h: Hex) {
    (h in m <==> h in m') && (h in m ==> m'[h] == m[h])
  }

  /** A download returns exactly when the final file has the expected size and digest; until then
      it leaves the final file alone; and it touches only files named by its own digest. */
  lemma ReturnsOnlyVerified(sha: Checksum, files: Files, blob: Blob, env: Environment)
    ensures var (files', done) := Download(sha, files, blob, env);
            && (done <==> Complete(sha, files', blob))
            && (!done ==> files'.finals == files.finals)
            && forall h: Hex :: h != blob.hex ==>
                 && SameAt(files.finals, files'.finals, h)
                 && SameAt(files.partials, files'.partials, h)
                 && SameAt(files.candidates, files'.candidates, h)
  {
    RetryIsSound(sha, blob, StartingPartial(files, blob, env.ingest), env.transfers);
  }

  predicate SizesAgree(items: seq<Item>) {
    forall i, j :: 0 <= i < |items| && 0 <= j < |items| && items[i].blob.hex == items[j].blob.hex ==>
                     items[i].blob.size == items[j].blob.size
  }

  /** A verified blob survives the download of any blob that does not claim another size for it. */
  lemma CompleteSurvives(sha: Checksum, files: Files, blob: Blob, items: seq<Item>)
    requires Complete(sha, files, blob)
    requires forall i :: 0 <= i < |items| && items[i].blob.hex == blob.hex ==> items[i].blob.size == blob.size
    ensures Complete(sha, DownloadAll(sha, files, items).0, blob)
    decreases |items|
  {
    if items != [] {
      var files' := Download(sha, files, items[0].blob, items[0].env).0;
      ReturnsOnlyVerified(sha, files, items[0].blob, items[0].env);
      assert Complete(sha, files', blob) by {
        if items[0].blob.hex != blob.hex {
          assert SameAt(files.finals, files'.finals, blob.hex);
        } else {
          assert items[0].blob == blob;
        }
      }
      CompleteSurvives(sha, files', blob, items[1..]);
    }
  }

  /** When the loop ends, all blobs of the manifest, repeated digests included, are verified at
      the same time if and only if no digest is listed with two different sizes. */
  lemma AllVerifiedAtOnce(sha: Checksum, files: Files, items: seq<Item>)
    requires DownloadAll(sha, files, items).1
    ensures (forall i :: 0 <= i < |items| ==> Complete(sha, DownloadAll(sha, files, items).0, items[i].blob)) <==>
            SizesAgree(items)
  {
    if SizesAgree(items) {
      AllVerified(sha, files, items);
    }
  }

  lemma {:induction false} AllVerified(sha: Checksum, files: Files, items: seq<Item>)
    requires DownloadAll(sha, files, items).1 && SizesAgree(items)
    ensures forall i :: 0 <= i < |items| ==> Complete(sha, DownloadAll(sha, files, items).0, items[i].blob)
    decreases |items|
  {
    if items != [] {
      var files' := Download(sha, files, items[0].blob, items[0].env).0;
      ReturnsOnlyVerified(sha, files, items[0].blob, items[0].env);
      CompleteSurvives(sha, files', items[0].blob, items[1..]);
      AllVerified(sha, files', items[1..]);
      forall i | 0 <= i < |items| ensures Complete(sha, DownloadAll(sha, files, items).0, items[i].blob) {
        assert i > 0 ==> items[1..][i - 1] == items[i];
      }
    }
  }

  /** The checksum never confuses contents of different length. */
  ghost predicate SeparatesLengths(sha: Checksum) {
    forall c: Content, c': Content :: sha(c) == sha(c') ==> |c| == |c'|
  }

  ghost predicate HasContent(sha: Checksum, blob: Blob) {
    exists c :: Verified(sha, blob, c)
  }

  lemma {:induction false} EveryBlobHasContent(sha: Checksum, files: Files, items: seq<Item>)
    requires DownloadAll(sha, files, items).1
    ensures forall i :: 0 <= i < |items| ==> HasContent(sha, items[i].blob)
    decreases |items|
  {
    if items != [] {
      var files' := Download(sha, files, items[0].blob, items[0].env).0;
      ReturnsOnlyVerified(sha, files, items[0].blob, items[0].env);
      EveryBlobHasContent(sha, files', items[1..]);
      assert HasContent(sha, items[0].blob) by {
        assert Verified(sha, items[0].blob, files'.finals[items[0].blob.hex]);
      }
      forall i | 0 <= i < |items| ensures HasContent(sha, items[i].blob) {
        assert i > 0 ==> items[1..][i - 1] == items[i];
      }
    }
  }

  /** For a checksum that separates lengths there is no condition: the loop can only end if no digest
      is listed with two sizes, so when it ends every listed blob is verified at the same time. */
  lemma EndOfLoopVerifiesAll(sha: Checksum, files: Files, items: seq<Item>)
    requires SeparatesLengths(sha) && DownloadAll(sha, files, items).1
    ensures SizesAgree(items)
    ensures forall i :: 0 <= i < |items| ==> Complete(sha, DownloadAll(sha, files, items).0, items[i].blob)
  {
    EveryBlobHasContent(sha, files, items);
    forall i, j | 0 <= i < |items| && 0 <= j < |items| && items[i].blob.hex == items[j].blob.hex
      ensures items[i].blob.size == items[j].blob.size
    {
      var c :| Verified(sha, items[i].blob, c);
      var c' :| Verified(sha, items[j].blob, c');
    }
    AllVerified(sha, files, items);
  }

  /** Only a collision lets the loop end over one digest with two sizes; then the earlier entry is no
      longer what its size says.  The checksum here is one that confuses the two contents. */
  lemma TwoSizesForOneDigest()
    ensures var sha: Checksum := _ => "d";
            var offer := (c: Content) => Environment(true, c, None, []);
            var items := [Item(Blob("d", 0), offer([])), Item(Blob("d", 1), offer([7]))];
            var (files', done) := DownloadAll(sha, Files(map[], map[], map[]), items);
            done && !Complete(sha, files', items[0].blob)
  {
    var sha: Checksum := _ => "d";
    var offer := (c: Content) => Environment(true, c, None, []);
    var items := [Item(Blob("d", 0), offer([])), Item(Blob("d", 1), offer([7]))];
    var files0 := Files(map[], map[], map[]);
    var (files1, done1) := Download(sha, files0, items[0].blob, items[0].env);
    var (files2, done2) := Download(sha, files1, items[1].blob, items[1].env);
    assert items[1..] == [items[1]] && items[1..][1..] == [];
    assert DownloadAll(sha, files1, items[1..]) == (files2, true);
    assert DownloadAll(sha, files0, items) == (files2, true);
  }

  /** Every blob in the layout hashes to its own name. */
  ghost predicate NamedByChecksum(sha: Checksum, files: Files) {
    forall h :: h in files.finals ==> sha(files.finals[h]) == h
  }

  /** The blob loop keeps the layout content-addressed, also when it is interrupted in a download; in
      particular the manifest, checked against its digest before it is copied in, stays intact. */
  lemma {:induction false} LayoutStaysContentAddressed(sha: Checksum, files: Files, items: seq<Item>)
    requires NamedByChecksum(sha, files)
    ensures NamedByChecksum(sha, DownloadAll(sha, files, items).0)
    ensures files.finals.Keys <= DownloadAll(sha, files, items).0.finals.Keys
    decreases |items|
  {
    if items != [] {
      var blob, env := items[0].blob, items[0].env;
      var (files', done) := Download(sha, files, blob, env);
      ReturnsOnlyVerified(sha, files, blob, env);
      forall h | h in files'.finals ensures sha(files'.finals[h]) == h {
        assert h != blob.hex ==> SameAt(files.finals, files'.finals, h);
      }
      forall h | h in files.finals ensures h in files'.finals {
        assert h != blob.hex ==> SameAt(files.finals, files'.finals, h);
      }
      if done {
        LayoutStaysContentAddressed(sha, files', items[1..]);
      }
    }
  }

  /** Once everything is verified, running the loop again changes nothing and needs nothing. */
  lemma {:induction false} CompletedRunIsFixed(sha: Checksum, files: Files, items: seq<Item>)
    requires forall i :: 0 <= i < |items| ==> Complete(sha, files, items[i].blob)
    ensures DownloadAll(sha, files, items) == (files, true)
    decreases |items|
  {
    if items != [] {
      assert Complete(sha, files, items[0].blob);
      CompletedRunIsFixed(sha, files, items[1..]);
    }
  }

  /** The manifest stage killed in the middle of its copy, which is not atomic. */
  function CutManifestCopy(sha: Checksum, files: Files, manifest: Content, n: nat): Files
    requires n <= |manifest|
  {
    files.(finals := files.finals[sha(manifest) := manifest[..n]])
  }

  /** A manifest copy that was cut short is the one thing that breaks the content addressing: the
      next manifest stage repairs it exactly if it installs under the same digest again, so not if
      the tag has moved meanwhile. */
  lemma CutManifestIsRepairedBySameDigest(sha: Checksum, files: Files, manifest: Content, n: nat, next: Content, indexDigest: Option<Hex>)
    requires NamedByChecksum(sha, files) && n <= |manifest| && sha(manifest[..n]) != sha(manifest)
    requires InstallManifest(sha, CutManifestCopy(sha, files, manifest, n), next, indexDigest).Some?
    ensures NamedByChecksum(sha, InstallManifest(sha, CutManifestCopy(sha, files, manifest, n), next, indexDigest).value) <==>
            sha(next) == sha(manifest)
  {
    var cut := CutManifestCopy(sha, files, manifest, n);
    var installed := InstallManifest(sha, cut, next, indexDigest).value;
    if sha(next) != sha(manifest) {
      assert installed.finals[sha(manifest)] == manifest[..n];
    }
  }

  /** What the script downloads: the entries it reads from the manifest, each meeting some
      environment. */
  function ItemsOf(blobs: seq<Blob>, env: nat -> Environment): seq<Item> {
    seq(|blobs|, i requires 0 <= i < |blobs| => Item(blobs[i], env(i)))
  }

  ghost predicate Injective(sha: Checksum) {
    forall c: Content, c': Content :: sha(c) == sha(c') ==> c == c'
  }

  /** The whole script up to the import, with any way of reading entries from a manifest.  From a
      content-addressed layout (an empty one is) the import happens on a layout that is
      content-addressed, has a manifest under the digest the index named, and, with a checksum that
      separates lengths, has every entry of the manifest verified; without collisions the manifest
      in the layout is the very one whose entries these are. */
  lemma ImportedLayoutIsChecked(sha: Checksum, files: Files, manifest: Content, indexDigest: Option<Hex>,
      entries: Content -> seq<Blob>, env: nat -> Environment)
    requires NamedByChecksum(sha, files)
    requires InstallManifest(sha, files, manifest, indexDigest).Some?
    requires DownloadAll(sha, InstallManifest(sha, files, manifest, indexDigest).value, ItemsOf(entries(manifest), env)).1
    ensures var layout := DownloadAll(sha, InstallManifest(sha, files, manifest, indexDigest).value, ItemsOf(entries(manifest), env)).0;
            && NamedByChecksum(sha, layout)
            && sha(manifest) in layout.finals
            && (indexDigest.Some? ==> sha(layout.finals[sha(manifest)]) == indexDigest.value)
            && (SeparatesLengths(sha) ==>
                  forall i :: 0 <= i < |entries(manifest)| ==> Complete(sha, layout, entries(manifest)[i]))
            && (Injective(sha) ==> layout.finals[sha(manifest)] == manifest)
  {
    var items := ItemsOf(entries(manifest), env);
    var installed := InstallManifest(sha, files, manifest, indexDigest).value;
    assert NamedByChecksum(sha, installed);
    LayoutStaysContentAddressed(sha, installed, items);
    if SeparatesLengths(sha) {
      EndOfLoopVerifiesAll(sha, installed, items);
      assert forall i :: 0 <= i < |entries(manifest)| ==> items[i].blob == entries(manifest)[i];
    }
  }

  // ----- An honest network -----

  /** The transfer appends the next piece of the true blob, or nothing. */
  ghost predicate AppendsNextPiece(blob: Content, t: Transfer) {
    forall c: Content :: |c| <= |blob| ==> |c| <= |t(c)| <= |blob| && t(c) == c + blob[|c|..|t(c)|]
  }

  ghost predicate Productive(blob: Content, t: Transfer) {
    forall c: Content :: |c| < |blob| ==> |c| < |t(c)|
  }

  ghost predicate Honest(blob: Content, transfers: seq<Transfer>) {
    forall k :: 0 <= k < |transfers| ==> AppendsNextPiece(blob, transfers[k])
  }

  /** A partial that is a prefix of the blob stays one and is never thrown away: the bytes fetched
      are exactly the bytes that were missing, over any number of interruptions. */
  lemma {:induction false} PrefixIsNeverRefetched(sha: Checksum, blob: Blob, content: Content, partial: Content, transfers: seq<Transfer>)
    requires Verified(sha, blob, content) && partial <= content && Honest(content, transfers)
    ensures var p := Retry(sha, blob, partial, transfers);
            && p.resets == 0
            && partial <= p.partial <= content
            && p.fetched == |p.partial| - |partial|
            && (p.finished <==> p.partial == content)
            && (p.finished ==> p.fetched == blob.size - |partial|)
    decreases |transfers|
  {
    assert |partial| == blob.size ==> partial == content;
    if !Verified(sha, blob, partial) && transfers != [] {
      assert AppendsNextPiece(content, transfers[0]);
      var next := transfers[0](partial);
      assert next == content[..|next|];
      PrefixIsNeverRefetched(sha, blob, content, next, transfers[1..]);
      assert partial <= next;
    } else if Verified(sha, blob, partial) {
      assert partial == content;
    }
  }

  /** From any partial that is not oversized at most one checksum reset happens, it is followed by
      a clean prefix, and it costs at most one more download of the blob. */
  lemma {:induction false} AtMostOneReset(sha: Checksum, blob: Blob, content: Content, partial: Content, transfers: seq<Transfer>)
    requires Verified(sha, blob, content) && |partial| <= blob.size && Honest(content, transfers)
    ensures var p := Retry(sha, blob, partial, transfers);
            && p.resets <= 1
            && |p.partial| <= blob.size
            && p.fetched == |p.partial| - |partial| + p.resets * blob.size
            && (p.resets == 1 ==> p.partial <= content)
            && (p.finished ==> p.fetched <= 2 * blob.size - |partial|)
    decreases |transfers|
  {
    if !Verified(sha, blob, partial) && transfers != [] {
      assert AppendsNextPiece(content, transfers[0]);
      if |partial| == blob.size {
        var next := transfers[0]([]);
        assert next == content[..|next|];
        PrefixIsNeverRefetched(sha, blob, content, next, transfers[1..]);
      } else {
        AtMostOneReset(sha, blob, content, transfers[0](partial), transfers[1..]);
      }
    }
  }

  /** Transfers still needed at one byte each: the rest of this partial, and the whole blob again
      if the partial turns out not to be a prefix of it. */
  function Needed(blob: Content, partial: Content): nat
    requires |partial| <= |blob|
  {
    |blob| - |partial| + if partial <= blob then 0 else |blob|
  }

  /** The transfers that add something whenever something is missing; the others may fail. */
  ghost function ProductiveCount(content: Content, transfers: seq<Transfer>): nat {
    if transfers == [] then 0
    else (if Productive(content, transfers[0]) then 1 else 0) + ProductiveCount(content, transfers[1..])
  }

  /** Productive transfers end the loop after boundedly many, however many failing ones, which
      append nothing or some bytes, come between them. */
  lemma {:induction false} ProductiveTransfersFinish(sha: Checksum, blob: Blob, content: Content, partial: Content, transfers: seq<Transfer>)
    requires Verified(sha, blob, content) && |partial| <= blob.size && Honest(content, transfers)
    requires ProductiveCount(content, transfers) >= Needed(content, partial)
    ensures Retry(sha, blob, partial, transfers).finished
    decreases |transfers|
  {
    if partial <= content && |partial| == |content| {
      assert partial == content;
    }
    if !Verified(sha, blob, partial) {
      assert transfers != [];
      assert AppendsNextPiece(content, transfers[0]);
      var base := if |partial| == blob.size then [] else partial;
      var next := transfers[0](base);
      assert next[..|base|] == base;
      if base <= content {
        assert next == content[..|next|];
      }
      assert next <= content ==> base <= content;
      ProductiveTransfersFinish(sha, blob, content, next, transfers[1..]);
    }
  }

  // ----- What is already there -----

  function Longer(found: Option<Content>, ingest: Option<Content>): nat {
    var f := if found.Some? then |found.value| else 0;
    var i := if ingest.Some? then |ingest.value| else 0;
    if i > f then i else f
  }

  /** A usable leftover is the beginning of the blob; an oversized one counts as nothing. */
  predicate Leftover(content: Content, file: Option<Content>) {
    file.Some? ==> file.value <= content || |file.value| > |content|
  }

  /** The partial file left by an earlier run, if any. */
  function Found(files: Files, blob: Blob): Option<Content> {
    if blob.hex in files.partials then Some(files.partials[blob.hex]) else None
  }

  /** The head start.  When what an earlier run and containerd left behind are beginnings of the blob,
      the download starts from the longer of the two, so as many productive transfers as the rest has
      bytes make it return, and an unfinished run never leaves less.  If the longer one is longer
      than the blob, nothing of either is used. */
  lemma HeadStartIsUsed(sha: Checksum, files: Files, blob: Blob, content: Content, env: Environment)
    requires Verified(sha, blob, content) && Honest(content, env.transfers)
    requires Leftover(content, Found(files, blob)) && Leftover(content, env.ingest)
    ensures var longer := Longer(Found(files, blob), env.ingest);
            var start := if longer > blob.size then 0 else longer;
            var (files', done) := Download(sha, files, blob, env);
            && (ProductiveCount(content, env.transfers) >= blob.size - start ==> done)
            && (!done ==> blob.hex in files'.partials && content[..start] <= files'.partials[blob.hex] <= content)
            && (env.transfers == [] && !done ==> files'.partials[blob.hex] == content[..start])
  {
    var longer := Longer(Found(files, blob), env.ingest);
    var start := if longer > blob.size then 0 else longer;
    var partial := StartingPartial(files, blob, env.ingest);
    assert partial == content[..start];
    if !Complete(sha, files, blob) && !(env.queryOk && Verified(sha, blob, env.queryOutput)) {
      PrefixIsNeverRefetched(sha, blob, content, partial, env.transfers);
      if ProductiveCount(content, env.transfers) >= blob.size - start {
        ProductiveTransfersFinish(sha, blob, content, partial, env.transfers);
      }
    }
  }

  /** A verified blob in the content store is taken over without any transfer, and a download that got
      as far as asking leaves no copy of the store's answer; one that returns through the loop leaves
      no partial either. */
  lemma StoreAnswerIsUsed(sha: Checksum, files: Files, blob: Blob, env: Environment)
    requires !Complete(sha, files, blob)
    ensures var (files', done) := Download(sha, files, blob, env);
            var answered := env.queryOk && Verified(sha, blob, env.queryOutput);
            && blob.hex !in files'.candidates
            && (answered ==> done && files'.finals == files.finals[blob.hex := env.queryOutput] &&
                             files'.partials == files.partials)
            && (!answered ==> (done <==> blob.hex !in files'.partials))
  {
  }

  /** The manifest stage stops exactly on an empty manifest or one that does not have the digest the
      index named, and otherwise adds the manifest under its own digest and changes nothing else. */
  lemma ManifestIsInstalledIffItMatches(sha: Checksum, files: Files, manifest: Content, indexDigest: Option<Hex>)
    ensures var r := InstallManifest(sha, files, manifest, indexDigest);
            && (r.Some? <==> |manifest| > 0 && (indexDigest == None || indexDigest == Some(sha(manifest))))
            && (r.Some? ==>
                  && sha(manifest) in r.value.finals && r.value.finals[sha(manifest)] == manifest
                  && r.value.partials == files.partials && r.value.candidates == files.candidates
                  && forall h: Hex :: h != sha(manifest) ==> SameAt(files.finals, r.value.finals, h))
  {
  }

  // ----- Being killed and restarted -----

  lemma {:induction false} RetryResumes(sha: Checksum, blob: Blob, partial: Content, before: seq<Transfer>, after: seq<Transfer>)
    requires !Retry(sha, blob, partial, before).finished
    ensures var p := Retry(sha, blob, partial, before);
            var q := Retry(sha, blob, p.partial, after);
            Retry(sha, blob, partial, before + after) ==
            Progress(q.partial, q.finished, p.fetched + q.fetched, p.resets + q.resets)
    decreases |before|
  {
    if before == [] {
      assert before + after == after;
    } else {
      assert (before + after)[1..] == before[1..] + after;
      RetryResumes(sha, blob, before[0](if |partial| == blob.size then [] else partial), before[1..], after);
    }
  }

  /** Killing the script and starting it again loses nothing: with the same transfers the two runs
      leave the files of one uninterrupted run.  The second run may find the same or another ingest
      file, as long as it is no longer than the partial left behind (a longer one would replace it),
      and the store may answer, as long as the answer is not the blob; the partial left behind must
      not be oversized. */
  lemma RestartEqualsOneRun(sha: Checksum, files: Files, blob: Blob, first: Environment, second: Environment)
    requires !Download(sha, files, blob, first).1
    requires !(second.queryOk && Verified(sha, blob, second.queryOutput))
    requires var left := Download(sha, files, blob, first).0.partials[blob.hex];
             && |left| <= blob.size
             && (second.ingest.None? || |second.ingest.value| <= |left|)
    ensures Download(sha, Download(sha, files, blob, first).0, blob, second) ==
            Download(sha, files, blob, first.(transfers := first.transfers + second.transfers))
  {
    var files1 := Download(sha, files, blob, first).0;
    var start := StartingPartial(files, blob, first.ingest);
    RetryResumes(sha, blob, start, first.transfers, second.transfers);
    assert StartingPartial(files1, blob, second.ingest) == Retry(sha, blob, start, first.transfers).partial;
    assert Without(files1.candidates, blob.hex) == files1.candidates;
    var q := Retry(sha, blob, StartingPartial(files1, blob, second.ingest), second.transfers);
    assert files1.partials[blob.hex := q.partial] == files.partials[blob.hex := q.partial];
    assert Without(files1.partials, blob.hex) == Without(files.partials, blob.hex);
  }

  // ----- Oversized partials -----

  ghost predicate NeverShrinks(transfers: seq<Transfer>) {
    forall k, c: Content :: 0 <= k < |transfers| ==> |transfers[k](c)| >= |c|
  }

  /** The exception: a partial that outgrows the blob inside the loop is not reset there, so no
      transfer that only appends can end the loop, while a restart discards it. */
  lemma {:induction false} OversizedPartialIsStuck(sha: Checksum, blob: Blob, partial: Content, transfers: seq<Transfer>)
    requires |partial| > blob.size && NeverShrinks(transfers)
    ensures var p := Retry(sha, blob, partial, transfers);
            !p.finished && p.resets == 0 && |p.partial| > blob.size
    ensures forall files: Files :: blob.hex in files.partials && files.partials[blob.hex] == partial ==>
              StartingPartial(files, blob, None) == []
    decreases |transfers|
  {
    if transfers != [] {
      assert |transfers[0](partial)| >= |partial|;
      forall k, c: Content | 0 <= k < |transfers[1..]| ensures |transfers[1..][k](c)| >= |c| {
        assert transfers[1..][k] == transfers[k + 1];
      }
      OversizedPartialIsStuck(sha, blob, transfers[0](partial), transfers[1..]);
    }
  }

  /** With an honest network that only appends and is productive often enough, the loop ends if and
      only if the partial it starts from is not longer than the blob. */
  lemma FinishesIffNotOversized(sha: Checksum, blob: Blob, content: Content, partial: Content, transfers: seq<Transfer>)
    requires Verified(sha, blob, content) && Honest(content, transfers) && NeverShrinks(transfers)
    requires ProductiveCount(content, transfers) >= 2 * blob.size
    ensures Retry(sha, blob, partial, transfers).finished <==> |partial| <= blob.size
  {
    if |partial| <= blob.size {
      ProductiveTransfersFinish(sha, blob, content, partial, transfers);
    } else {
      OversizedPartialIsStuck(sha, blob, partial, transfers);
    }
  }

  /** A download never starts the loop oversized, so with such a network it always returns, whatever
      files, store answer and ingest file it meets. */
  lemma HonestDownloadReturns(sha: Checksum, files: Files, blob: Blob, content: Content, env: Environment)
    requires Verified(sha, blob, content) && Honest(content, env.transfers)
    requires ProductiveCount(content, env.transfers) >= 2 * blob.size
    ensures Download(sha, files, blob, env).1
  {
    ProductiveTransfersFinish(sha, blob, content, StartingPartial(files, blob, env.ingest), env.transfers);
  }

  /** But the network can make it oversized.  From empty files, a registry that serves a blob longer
      than the manifest says leaves an oversized partial after one transfer, and the download does
      not return however many transfers that never shrink the file follow; nor does any restart
      that is served the same way. */
  lemma LongerServedBlobNeverReturns(sha: Checksum, files: Files, blob: Blob, served: Content, env: Environment)
    requires blob.hex !in files.finals && blob.hex !in files.partials
    requires !Verified(sha, blob, []) && |served| > blob.size
    requires !env.queryOk && env.ingest.None?
    requires env.transfers != [] && env.transfers[0]([]) == served && NeverShrinks(env.transfers[1..])
    ensures var (files', done) := Download(sha, files, blob, env);
            && !done && |files'.partials[blob.hex]| > blob.size
            && !Download(sha, files', blob, env).1
  {
    OversizedPartialIsStuck(sha, blob, served, env.transfers[1..]);
  }
}

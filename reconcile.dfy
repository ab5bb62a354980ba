/** What `main` does with the generated files in `--verify` and
    `--incremental` mode (scripts/generate_source.py, lines 217-253). */
module Reconcile {

  import opened Text
  import opened Files
  import Sequences

  /** The outcome of the verify scan: success, or the first offending name
      with the reason printed for it. */
  datatype VerifyReport =
    | Success
    | MissingRepoFile(name: string)
    | MissingGenerator(name: string)
    | ContentMismatch(name: string)

  /** The value `main` returns for a report (lines 226, 229, 238, 253). */
  function ExitCode(report: VerifyReport): (code: int)
    ensures code == 0 <==> report.Success?
    ensures code in {0, 2, 3, 4}
  {
    match report
    case Success => 0
    case MissingRepoFile(_) => 2
    case MissingGenerator(_) => 3
    case ContentMismatch(_) => 4
  }

  /** The names the scan looks at: both listings, minus the exclusions. */
  function Examined(generated: Listing, repo: Listing, exclude: set<string>): (examined: set<string>)
    ensures forall n :: n in examined <==> (n in generated || n in repo) && n !in exclude
  {
    (generated.Keys + repo.Keys) - exclude
  }

  /** The test applied to one name (lines 224-238), in the code's order:
      missing from the repository first, then missing from the generated
      files, then differing bytes. */
  function Check(name: string, generated: Listing, repo: Listing): (report: VerifyReport)
    ensures report == Success <==> name in generated && name in repo && generated[name] == repo[name]
    ensures report != Success ==> report.name == name
    ensures report.MissingRepoFile? <==> name !in repo
    ensures report.MissingGenerator? <==> name in repo && name !in generated
  {
    if name !in repo then MissingRepoFile(name)
    else if name !in generated then MissingGenerator(name)
    else if generated[name] != repo[name] then ContentMismatch(name)
    else Success
  }

  /** The examined names that fail their check. */
  ghost function Offending(generated: Listing, repo: Listing, exclude: set<string>): set<string>
  {
    set n | n in Examined(generated, repo, exclude) && Check(n, generated, repo) != Success
  }

  /** What the verify scan reports: success when no examined name fails its
      check, otherwise the check of the first failing name in sorted order. */
  ghost function VerifyOutcome(generated: Listing, repo: Listing, exclude: set<string>): (report: VerifyReport)
    ensures report == Success <==>
              forall n :: n in Examined(generated, repo, exclude) ==>
                n in generated && n in repo && generated[n] == repo[n]
    ensures report != Success ==>
              && report.name in Examined(generated, repo, exclude)
              && Check(report.name, generated, repo) == report
              && forall m :: m in Examined(generated, repo, exclude) && LessEq(m, report.name) && m != report.name ==>
                   Check(m, generated, repo) == Success
  {
    var offending := Offending(generated, repo, exclude);
    if offending == {} then
      assert forall n :: n in Examined(generated, repo, exclude) ==> Check(n, generated, repo) == Success by {
        forall n | n in Examined(generated, repo, exclude) ensures Check(n, generated, repo) == Success {
          assert n !in offending;
        }
      }
      Success
    else
      LeastExists(offending);
      var first :| IsLeast(first, offending);
      assert forall m :: m in Examined(generated, repo, exclude) && LessEq(m, first) && m != first ==>
               Check(m, generated, repo) == Success by {
        forall m | m in Examined(generated, repo, exclude) && LessEq(m, first) && m != first
          ensures Check(m, generated, repo) == Success
        {
          if Check(m, generated, repo) != Success {
            assert m in offending;
            LessEqAntisymmetric(m, first);
          }
        }
      }
      Check(first, generated, repo)
  }

  /** The verify scan of lines 219-241: walk the examined names in sorted
      order and stop at the first that is missing from the repository,
      missing from the generated files, or different in its bytes. */
  method Verify(generated: Listing, repo: Listing, exclude: set<string>) returns (report: VerifyReport)
    ensures report == VerifyOutcome(generated, repo, exclude)
  {
    var examined := Examined(generated, repo, exclude);
    var remaining := examined;
    while remaining != {}
      invariant remaining <= examined
      invariant forall n :: n in examined && n !in remaining ==> Check(n, generated, repo) == Success
      invariant forall n, m :: n in examined && n !in remaining && m in remaining ==> LessEq(n, m)
      decreases remaining
    {
      LeastExists(remaining);
      var name :| IsLeast(name, remaining);
      if name !in repo {
        report := MissingRepoFile(name);
        FirstOffender(generated, repo, exclude, remaining, name);
        return;
      } else if name !in generated {
        report := MissingGenerator(name);
        FirstOffender(generated, repo, exclude, remaining, name);
        return;
      } else if generated[name] != repo[name] {
        report := ContentMismatch(name);
        FirstOffender(generated, repo, exclude, remaining, name);
        return;
      }
      remaining := remaining - {name};
    }
    report := Success;
  }

  /** When every name below `remaining` passed and `name` is the first of
      `remaining` and fails, the outcome is `name`'s check. */
  lemma FirstOffender(generated: Listing, repo: Listing, exclude: set<string>, remaining: set<string>, name: string)
    requires remaining <= Examined(generated, repo, exclude)
    requires forall n :: n in Examined(generated, repo, exclude) && n !in remaining ==> Check(n, generated, repo) == Success
    requires IsLeast(name, remaining) && Check(name, generated, repo) != Success
    ensures VerifyOutcome(generated, repo, exclude) == Check(name, generated, repo)
  {
    var examined := Examined(generated, repo, exclude);
    var report := VerifyOutcome(generated, repo, exclude);
    assert name in examined;
    assert report != Success;
    // the reported name fails too, so it was not passed over: it is in `remaining`
    assert report.name in remaining;
    assert LessEq(name, report.name);
    // every name strictly below the reported one passes, and `name` fails
    assert name == report.name;
  }

  /** Names in the exclusion list never affect the outcome: listings that
      agree outside it verify alike, whatever the excluded files hold. */
  lemma ExclusionsIgnored(generated: Listing, repo: Listing, generated': Listing, repo': Listing, exclude: set<string>)
    requires forall n :: n !in exclude ==> (n in generated <==> n in generated') && (n in repo <==> n in repo')
    requires forall n :: n !in exclude && n in generated ==> generated[n] == generated'[n]
    requires forall n :: n !in exclude && n in repo ==> repo[n] == repo'[n]
    ensures VerifyOutcome(generated, repo, exclude) == VerifyOutcome(generated', repo', exclude)
  {
    var examined := Examined(generated, repo, exclude);
    assert examined == Examined(generated', repo', exclude);
    forall n | n in examined ensures Check(n, generated, repo) == Check(n, generated', repo') {
    }
  }

  /** Identical listings verify. */
  lemma IdenticalListingsVerify(files: Listing, exclude: set<string>)
    ensures VerifyOutcome(files, files, exclude) == Success
  {
  }

  /** One file whose bytes differ, everything else equal: the scan reports a
      content mismatch for that file. */
  lemma SingleDifferenceIsMismatch(generated: Listing, repo: Listing, exclude: set<string>, name: string)
    requires generated.Keys == repo.Keys && name in generated && name !in exclude
    requires generated[name] != repo[name]
    requires forall n :: n in generated && n != name ==> generated[n] == repo[n]
    ensures VerifyOutcome(generated, repo, exclude) == ContentMismatch(name)
  {
  }

  /** A repository file that nothing generates: "Missing generator" naming it. */
  lemma ExtraRepoFileIsMissingGenerator(generated: Listing, name: string, bytes: Bytes, exclude: set<string>)
    requires name !in generated && name !in exclude
    ensures VerifyOutcome(generated, generated[name := bytes], exclude) == MissingGenerator(name)
  {
  }

  /** A generated file the repository lacks: "Missing repo file" naming it. */
  lemma ExtraGeneratedFileIsMissingRepoFile(repo: Listing, name: string, bytes: Bytes, exclude: set<string>)
    requires name !in repo && name !in exclude
    ensures VerifyOutcome(repo[name := bytes], repo, exclude) == MissingRepoFile(name)
  {
  }

  /** The names incremental mode copies: generated files the repository lacks
      or holds with other bytes. */
  function Changed(generated: Listing, repo: Listing): (changed: set<string>)
    ensures changed <= generated.Keys
    ensures changed == {} <==> forall f :: f in generated ==> f in repo && repo[f] == generated[f]
  {
    var changed := set f | f in generated && (f !in repo || repo[f] != generated[f]);
    assert changed != {} ==> exists f :: f in generated && (f !in repo || repo[f] != generated[f]) by {
      if changed != {} {
        var f :| f in changed;
      }
    }
    assert changed == {} ==> forall f :: f in generated ==> f in repo && repo[f] == generated[f] by {
      if changed == {} {
        forall f | f in generated ensures f in repo && repo[f] == generated[f] {
          assert f !in changed;
        }
      }
    }
    changed
  }

  /** The copy loop of lines 245-251. `os.listdir` order is not specified, so
      the loop takes the remaining names in any order. The repository ends up
      with every generated file's bytes and keeps every other file; the log
      names each copied file once. */
  method PublishChanged(generated: Listing, repo: Directory) returns (updated: seq<string>)
    modifies repo
    ensures repo.files == old(repo.files) + generated
    ensures (set f | f in updated) == Changed(generated, old(repo.files))
    ensures Sequences.Distinct(updated)
  {
    var remaining := generated.Keys;
    updated := [];
    while remaining != {}
      invariant remaining <= generated.Keys
      invariant repo.files.Keys == old(repo.files).Keys + (generated.Keys - remaining)
      invariant forall f :: f in generated && f !in remaining ==> repo.files[f] == generated[f]
      invariant forall f :: f in old(repo.files) && (f !in generated || f in remaining) ==> repo.files[f] == old(repo.files)[f]
      invariant (set f | f in updated) == Changed(generated, old(repo.files)) - remaining
      invariant Sequences.Distinct(updated)
      decreases remaining
    {
      var name :| name in remaining;
      assert name in repo.files <==> name in old(repo.files);
      assert name in repo.files ==> repo.files[name] == old(repo.files)[name];
      assert name in Changed(generated, old(repo.files)) <==> name !in repo.files || repo.files[name] != generated[name];
      ghost var changed := Changed(generated, old(repo.files));
      if name !in repo.files || repo.files[name] != generated[name] {
        repo.files := repo.files[name := generated[name]];
        assert (set f | f in updated + [name]) == (set f | f in updated) + {name};
        assert changed - (remaining - {name}) == (changed - remaining) + {name};
        updated := updated + [name];
      } else {
        assert changed - (remaining - {name}) == changed - remaining;
      }
      remaining := remaining - {name};
    }
  }

  /** Publishing twice copies nothing the second time. */
  lemma PublishIdempotent(generated: Listing, repo: Listing)
    ensures Changed(generated, repo + generated) == {}
  {
  }

  /** After incremental mode, verify mode can only fail on a repository file
      that nothing generates: no file is missing from the repository and no
      file differs. */
  lemma VerifyAfterPublish(generated: Listing, repo: Listing, exclude: set<string>)
    ensures VerifyOutcome(generated, repo + generated, exclude).Success?
         || VerifyOutcome(generated, repo + generated, exclude).MissingGenerator?
  {
  }

  /** ... and it succeeds when the repository had no such file. */
  lemma VerifyAfterPublishSucceeds(generated: Listing, repo: Listing, exclude: set<string>)
    requires repo.Keys - exclude <= generated.Keys
    ensures VerifyOutcome(generated, repo + generated, exclude) == Success
  {
  }

  /** With no generated files, the scan succeeds exactly when every repository
      file is excluded, and otherwise reports "Missing generator". */
  lemma VerifyNothingGenerated(repo: Listing, exclude: set<string>)
    ensures VerifyOutcome(map[], repo, exclude) == Success <==> repo.Keys <= exclude
    ensures VerifyOutcome(map[], repo, exclude) != Success ==> VerifyOutcome(map[], repo, exclude).MissingGenerator?
  {
  }
}

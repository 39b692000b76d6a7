/**
 * The stand-alone analysis script: the same front end as the validation
 * module, with the results file taken from the command line (or a default
 * name in the working directory) and the reference file at a fixed name.
 */
module StatisticalAnalysisScript {
  import opened Frames
  import opened StatisticalTest

  const DefaultResultsPath := "all_subjects_results.csv"
  const ReferencePath := "Centiloid_Project_Values.csv"

  /** What `os.path.exists` and `pd.read_csv` give for each path; a path not in the map does not exist. */
  type FileSystem = map<string, FileState>

  function Probe(fs: FileSystem, path: string): FileState {
    if path in fs then fs[path] else Absent
  }

  /** The results file: the first command-line argument when there is one, otherwise the default name. */
  function ResultsPath(argv: seq<string>): string {
    if |argv| > 1 then argv[1] else DefaultResultsPath
  }

  /** The whole run on command line `argv` (with `argv[0]` the script name) over file system `fs`. */
  function Run(argv: seq<string>, fs: FileSystem): Outcome {
    Validate(Probe(fs, ResultsPath(argv)), Probe(fs, ReferencePath))
  }

  /** A path given on the command line is the results file; arguments after it are ignored. */
  lemma ArgumentNamesResults(script: string, path: string, rest: seq<string>, fs: FileSystem)
    ensures ResultsPath([script, path] + rest) == path
    ensures Run([script, path] + rest, fs) == Validate(Probe(fs, path), Probe(fs, ReferencePath))
  {
    assert ([script, path] + rest)[1] == path;
  }

  /** Without an argument the results file is `all_subjects_results.csv`. */
  lemma DefaultNamesResults(argv: seq<string>, fs: FileSystem)
    requires |argv| <= 1
    ensures Run(argv, fs) == Validate(Probe(fs, DefaultResultsPath), Probe(fs, ReferencePath))
  {
  }

  /** The run reads two files and no others: file systems that agree on those two give the same outcome. */
  lemma OnlyTwoFilesRead(argv: seq<string>, fs1: FileSystem, fs2: FileSystem)
    requires Probe(fs1, ResultsPath(argv)) == Probe(fs2, ResultsPath(argv))
    requires Probe(fs1, ReferencePath) == Probe(fs2, ReferencePath)
    ensures Run(argv, fs1) == Run(argv, fs2)
  {
  }

  /** A missing results file ends the run with status 1, whatever the reference file holds. */
  lemma MissingResultsFails(argv: seq<string>, fs: FileSystem)
    requires ResultsPath(argv) !in fs
    ensures Run(argv, fs) == ResultsNotFound && Run(argv, fs).Fatal()
  {
  }

  /** With a usable results table, a missing reference file ends the run with status 1. */
  lemma MissingReferenceFails(argv: seq<string>, fs: FileSystem)
    requires Probe(fs, ResultsPath(argv)).Readable? && !IsEmpty(Probe(fs, ResultsPath(argv)).table)
    requires ReferencePath !in fs
    ensures Run(argv, fs) == ReferenceNotFound && Run(argv, fs).Fatal()
  {
    ReferenceChecked(Probe(fs, ResultsPath(argv)).table, Absent);
  }

  /** The script's `main` up to the correlation. */
  method RunScript(argv: seq<string>, fs: FileSystem) returns (o: Outcome)
    ensures o == Run(argv, fs)
  {
    var resultsFile := DefaultResultsPath;
    if |argv| > 1 {
      resultsFile := argv[1];
    }
    o := RunValidation(Probe(fs, resultsFile), Probe(fs, ReferencePath));
  }
}

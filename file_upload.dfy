/**
 * The file upload panel (`FileUpload` in
 * `frontend/src/components/fileUpload.js`): a chosen file is accepted only
 * when its name ends in `.c`, `.C` or `.h`, and its text is then handed to
 * the upload context's `addFile`; clicking a listed file makes it the
 * current file.  The context itself is not part of this model: the calls
 * made to `addFile` and `setCurrentFile` are recorded, in order.
 */
module FileUpload {
  /** `String.prototype.endsWith`: the last `|suffix|` characters are `suffix`. */
  predicate EndsWith(s: string, suffix: string)
  {
    |suffix| <= |s| && s[|s| - |suffix|..] == suffix
  }

  /** The names `handleOnChange` lets through. */
  predicate Accepted(name: string)
  {
    EndsWith(name, ".c") || EndsWith(name, ".C") || EndsWith(name, ".h")
  }

  /** A name is accepted exactly when it ends in a dot and one of `c`, `C`, `h`, case as written. */
  lemma AcceptedExactly(name: string)
    ensures Accepted(name) <==>
            |name| >= 2 && name[|name| - 2] == '.' && name[|name| - 1] in ['c', 'C', 'h']
  {
    if |name| >= 2 {
      var tail := name[|name| - 2..];
      assert tail == [name[|name| - 2], name[|name| - 1]];
    }
  }

  /** The test is exact: an upper-case header suffix and C++ sources are turned away, C sources let through. */
  lemma SuffixExamples()
    ensures !Accepted("main.H") && !Accepted("main.cpp") && !Accepted("c")
    ensures Accepted("main.c") && Accepted("MAIN.C") && Accepted("util.h")
  {
    AcceptedExactly("main.H");
    AcceptedExactly("main.cpp");
    AcceptedExactly("c");
    AcceptedExactly("main.c");
    AcceptedExactly("MAIN.C");
    AcceptedExactly("util.h");
  }

  /** The message shown for a rejected name. */
  const INVALID_FILE_TYPE := "Invalid file type"

  /** How reading the file as text ends: its text, or the reader's error, which rejects the promise. */
  datatype ReadOutcome = Loaded(text: string) | ReadFailed

  class Upload {
    var showAlert: bool
    var message: string
    /** The `addFile(name, text)` calls made, oldest first. */
    var added: seq<(string, string)>
    /** The `setCurrentFile(name)` calls made, oldest first. */
    var selected: seq<string>

    /** Only accepted names ever reach `addFile`. */
    ghost predicate Valid()
      reads this
    {
      forall i :: 0 <= i < |added| ==> Accepted(added[i].0)
    }

    /** The panel as it first renders: no alert, empty message, no calls made. */
    constructor ()
      ensures Valid()
      ensures !showAlert && message == "" && added == [] && selected == []
    {
      showAlert, message, added, selected := false, "", [], [];
    }

    /**
     * `handleOnChange` for a chosen file named `name` whose read ends as
     * `read`: a rejected name raises the alert and adds nothing; an accepted
     * one is added once with its text, unless the read fails.
     */
    method OnChange(name: string, read: ReadOutcome)
      requires Valid()
      modifies this
      ensures Valid() && selected == old(selected)
      ensures !Accepted(name) ==> showAlert && message == INVALID_FILE_TYPE && added == old(added)
      ensures Accepted(name) ==> showAlert == old(showAlert) && message == old(message)
      ensures Accepted(name) && read.Loaded? ==> added == old(added) + [(name, read.text)]
      ensures read.ReadFailed? ==> added == old(added)
    {
      if !EndsWith(name, ".c") && !EndsWith(name, ".C") && !EndsWith(name, ".h") {
        message := INVALID_FILE_TYPE;
        showAlert := true;
      } else {
        match read
        case Loaded(text) =>
          added := added + [(name, text)];
        case ReadFailed =>
      }
    }

    /** The alert's close button: hide the alert, nothing else. */
    method Dismiss()
      modifies this
      ensures !showAlert
      ensures message == old(message) && added == old(added) && selected == old(selected)
    {
      showAlert := false;
    }

    /** A click on the listed file at `index` of `names`: make that file current. */
    method Select(names: seq<string>, index: nat)
      requires index < |names|
      modifies this
      ensures selected == old(selected) + [names[index]]
      ensures showAlert == old(showAlert) && message == old(message) && added == old(added)
    {
      selected := selected + [names[index]];
    }
  }
}

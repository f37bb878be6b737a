/**
 * The transport controller: the identity of the track last started
 * (`current_music_file`, empty when there is none) and the play, pause,
 * resume and stop commands that drive the sound service with it.
 *
 * Each call to the sound service is one request; whether the service
 * accepts it is an outside fact and is passed in as `accepted`.
 */
module Transport {
  import opened Host

  /** A request to the sound service. */
  datatype Request =
    | PlayAsync(file: string)  // start playing a file and return at once
    | Purge                    // purge what is playing (used to pause)
    | Halt                     // stop what is playing

  /** The status line a command prints. */
  datatype Report =
    | Playing(track: string)
    | Paused(track: string)
    | Stopped(track: string)
    | PlayFailed       // "Failed to play the audio ..."
    | ResumeFailed     // "Failed to resume the audio ..."
    | PauseFailed
    | StopFailed
    | NothingPlaying   // "No music file is currently playing ..."
    | NothingToResume  // "No music file to resume ..."

  /** What one command does: the track identity afterwards, the request it issued, what it printed. */
  datatype Effect = Effect(track: string, request: Option<Request>, report: Report)

  /**
   * Playing `filename`; with `resume` set, restarting the stored track instead.
   * The track identity changes only on a fresh (not resumed) play of an existing
   * file that the service accepts, and then it becomes that file.
   */
  function PlayEffect(track: string, filename: string, resume: bool, disk: Disk, accepted: bool): (e: Effect)
    ensures e.request == None <==> !FileExists(disk, filename)
    ensures e.request.Some? ==> e.request.value == PlayAsync(if resume then track else filename)
    ensures e.track != track ==> !resume && FileExists(disk, filename) && accepted && e.track == filename
    ensures e.report.Playing? <==> FileExists(disk, filename) && accepted
    ensures e.report.Playing? ==> e.report.track == e.track
    ensures !resume && e.report.Playing? ==> e.track == filename
  {
    if !FileExists(disk, filename) then
      Effect(track, None, PlayFailed)
    else if resume then
      Effect(track, Some(PlayAsync(track)), if accepted then Playing(track) else ResumeFailed)
    else if accepted then
      Effect(filename, Some(PlayAsync(filename)), Playing(filename))
    else
      Effect(track, Some(PlayAsync(filename)), PlayFailed)
  }

  /** Pausing: purges playback when a track is set; the identity always survives. */
  function PauseEffect(track: string, accepted: bool): (e: Effect)
    ensures e.track == track
    ensures e.request == None <==> track == ""
    ensures e.request.Some? ==> e.request.value == Purge
    ensures e.report == Paused(track) <==> track != "" && accepted
  {
    if track == "" then
      Effect(track, None, NothingPlaying)
    else
      Effect(track, Some(Purge), if accepted then Paused(track) else PauseFailed)
  }

  /** Stopping: when a track is set it is cleared, whether or not the service stopped. */
  function StopEffect(track: string, accepted: bool): (e: Effect)
    ensures e.track == ""
    ensures e.request == None <==> track == ""
    ensures e.request.Some? ==> e.request.value == Halt
    ensures e.report == Stopped(track) <==> track != "" && accepted
  {
    if track == "" then
      Effect(track, None, NothingPlaying)
    else
      Effect("", Some(Halt), if accepted then Stopped(track) else StopFailed)
  }

  /**
   * The resume menu entry: with no stored track it only reports; otherwise it
   * plays the stored track again in resume mode, which first checks that the
   * stored file still exists. The identity never changes.
   */
  function ResumeEffect(track: string, disk: Disk, accepted: bool): (e: Effect)
    ensures e.track == track
    ensures e.request == None <==> track == "" || !FileExists(disk, track)
    ensures e.request.Some? ==> e.request.value == PlayAsync(track)
    ensures track == "" ==> e.report == NothingToResume
    ensures e.report == Playing(track) <==> track != "" && FileExists(disk, track) && accepted
  {
    if track == "" then
      Effect(track, None, NothingToResume)
    else
      PlayEffect(track, track, true, disk, accepted)
  }

  /** The process-wide transport state: the file last started, empty when none. */
  class Player {
    var currentMusicFile: string

    constructor ()
      ensures currentMusicFile == ""
    {
      currentMusicFile := "";
    }

    method PlayMusic(filename: string, resume: bool, disk: Disk, accepted: bool)
      returns (request: Option<Request>, report: Report)
      modifies this
      ensures Effect(currentMusicFile, request, report)
           == PlayEffect(old(currentMusicFile), filename, resume, disk, accepted)
    {
      if !FileExists(disk, filename) {
        return None, PlayFailed;
      }
      if resume {
        request := Some(PlayAsync(currentMusicFile));
        if !accepted {
          return request, ResumeFailed;
        }
      } else {
        request := Some(PlayAsync(filename));
        if !accepted {
          return request, PlayFailed;
        }
        currentMusicFile := filename;
      }
      report := Playing(currentMusicFile);
    }

    method PauseMusic(accepted: bool) returns (request: Option<Request>, report: Report)
      modifies this
      ensures Effect(currentMusicFile, request, report) == PauseEffect(old(currentMusicFile), accepted)
    {
      if currentMusicFile == "" {
        return None, NothingPlaying;
      }
      request := Some(Purge);
      if !accepted {
        report := PauseFailed;
      } else {
        report := Paused(currentMusicFile);
      }
    }

    method StopMusic(accepted: bool) returns (request: Option<Request>, report: Report)
      modifies this
      ensures Effect(currentMusicFile, request, report) == StopEffect(old(currentMusicFile), accepted)
    {
      if currentMusicFile == "" {
        return None, NothingPlaying;
      }
      request := Some(Halt);
      if !accepted {
        report := StopFailed;
      } else {
        report := Stopped(currentMusicFile);
      }
      currentMusicFile := "";
    }

    /** The resume entry of the menu. */
    method ResumeMusic(disk: Disk, accepted: bool) returns (request: Option<Request>, report: Report)
      modifies this
      ensures Effect(currentMusicFile, request, report) == ResumeEffect(old(currentMusicFile), disk, accepted)
    {
      if currentMusicFile != "" {
        request, report := PlayMusic(currentMusicFile, true, disk, accepted);
      } else {
        request, report := None, NothingToResume;
      }
    }
  }

  /** The transport commands an operator can choose. */
  datatype Command = PlayFile(filename: string) | Pause | Resume | Stop

  /** One command together with the outside facts it meets: the disk and the service's answer. */
  datatype Turn = Turn(command: Command, disk: Disk, accepted: bool)

  function Step(track: string, turn: Turn): (e: Effect)
  {
    match turn.command
    case PlayFile(f) => PlayEffect(track, f, false, turn.disk, turn.accepted)
    case Pause => PauseEffect(track, turn.accepted)
    case Resume => ResumeEffect(track, turn.disk, turn.accepted)
    case Stop => StopEffect(track, turn.accepted)
  }

  /** The track identity after a session of commands, starting from `track`. */
  function Final(track: string, turns: seq<Turn>): (t: string)
    decreases |turns|
  {
    if turns == [] then track else Final(Step(track, turns[0]).track, turns[1..])
  }

  /** The turn is a play of `f` that found the file and was accepted by the service. */
  predicate Starts(turn: Turn, f: string)
  {
    turn.command == PlayFile(f) && FileExists(turn.disk, f) && turn.accepted
  }

  /** One command leaves the identity alone, clears it by a stop, or sets it by a successful play. */
  lemma StepTrack(track: string, turn: Turn)
    ensures var t := Step(track, turn).track; t == track || (turn.command == Stop && t == "") || Starts(turn, t)
  {
  }

  /**
   * Over any session the final track identity is the initial one, empty, or a
   * file that some play command in the session found and started.
   */
  lemma {:induction false} TrackComesFromPlay(track: string, turns: seq<Turn>)
    ensures var t := Final(track, turns);
      t == track || t == "" || exists i :: 0 <= i < |turns| && Starts(turns[i], t)
    decreases |turns|
  {
    if turns != [] {
      var next := Step(track, turns[0]).track;
      StepTrack(track, turns[0]);
      TrackComesFromPlay(next, turns[1..]);
      var t := Final(track, turns);
      assert t == Final(next, turns[1..]);
      if t != track && t != "" {
        if t == next {
          assert Starts(turns[0], t);
        } else {
          var i :| 0 <= i < |turns[1..]| && Starts(turns[1..][i], t);
          assert Starts(turns[i + 1], t);
        }
      }
    }
  }

  /** From an empty start, a non-empty track identity was always started by some play command. */
  lemma TrackFromEmptyWasPlayed(turns: seq<Turn>)
    requires Final("", turns) != ""
    ensures exists i :: 0 <= i < |turns| && Starts(turns[i], Final("", turns))
  {
    TrackComesFromPlay("", turns);
  }

  /** Pausing and resuming, in any number and order, never change the track identity. */
  lemma {:induction false} PauseResumeKeepTrack(track: string, turns: seq<Turn>)
    requires forall i :: 0 <= i < |turns| ==> turns[i].command == Pause || turns[i].command == Resume
    ensures Final(track, turns) == track
    decreases |turns|
  {
    if turns != [] {
      assert Step(track, turns[0]).track == track;
      PauseResumeKeepTrack(track, turns[1..]);
    }
  }

  /** Running two sessions one after the other is running their concatenation. */
  lemma {:induction false} FinalAppend(track: string, turns: seq<Turn>, more: seq<Turn>)
    ensures Final(track, turns + more) == Final(Final(track, turns), more)
    decreases |turns|
  {
    if turns != [] {
      assert (turns + more)[1..] == turns[1..] + more;
      FinalAppend(Step(track, turns[0]).track, turns[1..], more);
    } else {
      assert turns + more == more;
    }
  }

  /** Whatever came before, a stop leaves no track identity, even when the service refused it. */
  lemma StopClears(track: string, turns: seq<Turn>, disk: Disk, accepted: bool)
    ensures Final(track, turns + [Turn(Stop, disk, accepted)]) == ""
  {
    FinalAppend(track, turns, [Turn(Stop, disk, accepted)]);
  }

  /** A play that is followed only by pauses and resumes leaves the played file as the track. */
  lemma PlayThenPauseResume(track: string, f: string, disk: Disk, turns: seq<Turn>)
    requires FileExists(disk, f)
    requires forall i :: 0 <= i < |turns| ==> turns[i].command == Pause || turns[i].command == Resume
    ensures Final(track, [Turn(PlayFile(f), disk, true)] + turns) == f
  {
    assert ([Turn(PlayFile(f), disk, true)] + turns)[1..] == turns;
    PauseResumeKeepTrack(f, turns);
  }

  /**
   * From the empty track, a play of a missing file leaves the track empty, and a
   * resume after it issues nothing and reports that there is nothing to resume.
   */
  lemma MissingPlayThenResume(f: string, disk: Disk, accepted: bool, resumeDisk: Disk, resumeAccepted: bool)
    requires !FileExists(disk, f)
    ensures Step("", Turn(PlayFile(f), disk, accepted)).track == ""
    ensures Step("", Turn(Resume, resumeDisk, resumeAccepted)) == Effect("", None, NothingToResume)
    ensures Final("", [Turn(PlayFile(f), disk, accepted), Turn(Resume, resumeDisk, resumeAccepted)]) == ""
  {
    var turns := [Turn(PlayFile(f), disk, accepted), Turn(Resume, resumeDisk, resumeAccepted)];
    assert turns[1..] == [turns[1]] && turns[1..][1..] == [];
    assert Final("", turns) == Final("", turns[1..]);
    assert Final("", turns[1..]) == Final("", []);
  }
}

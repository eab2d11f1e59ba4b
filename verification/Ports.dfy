/** The surroundings of the bridge besides its socket: clock, broker and log, each with what passed
    through it. */
module Ports {
  import opened Basics
  import opened LocoNet
  import opened Mqtt

  /** A clock whose readings never decrease; how much time passes between two readings is open. */
  class Clock {
    var now: nat

    constructor ()
      ensures now == 0
    {
      now := 0;
    }

    method NowMilliseconds() returns (reading: nat)
      modifies this
      ensures old(now) <= now == reading
    {
      var passed: nat :| passed >= 0;
      now := now + passed;
      return now;
    }
  }

  class MqttPort {
    var published: seq<MqttMessage>
    var commands: seq<IncomingMqttMessage>

    constructor ()
      ensures published == [] && commands == []
    {
      published, commands := [], [];
    }

    method Publish(message: MqttMessage)
      modifies this`published
      ensures published == old(published) + [message]
    {
      published := published + [message];
    }

    method ReceiveCommand() returns (message: Option<IncomingMqttMessage>)
      modifies this`commands
      ensures old(commands) == [] ==> message == None && commands == []
      ensures old(commands) != [] ==> message == Some(old(commands)[0]) && commands == old(commands)[1..]
    {
      if commands == [] {
        return None;
      }
      message := Some(commands[0]);
      commands := commands[1..];
    }
  }

  class MessageLog {
    var recorded: seq<Frame>

    constructor ()
      ensures recorded == []
    {
      recorded := [];
    }

    method Record(message: Frame)
      modifies this
      ensures recorded == old(recorded) + [message]
    {
      recorded := recorded + [message];
    }
  }
}

/** The two application windows as objects: `AutoEMGApp` of Toma_de_datos/main_app.py and
    `MainGestureApp` of system_data/main_app.py, each holding a session controller and a
    dataset manager. Every handler changes the objects as the `Capture` function of the same
    name says, so the recording properties proved there hold of the windows. */
module CaptureApps {
  import opened Wrappers
  import opened Values
  import Session
  import SessionController
  import DatasetManager
  import opened Capture

  class AutoEMGApp {
    const controller: SessionController.GestureSessionController
    const datasetManager: DatasetManager.GestureDatasetManager
    var autoCaptureActive: bool
    var isSensorConnected: bool
    var currentFeatures: Dict

    ghost function Snap(): AutoApp
      reads this, controller, datasetManager
    {
      AutoApp(controller.Snap(), datasetManager.Snap(), autoCaptureActive, isSensorConnected, currentFeatures)
    }

    constructor()
      ensures Snap() == AutoInit()
      ensures fresh(controller) && fresh(datasetManager)
    {
      controller := new SessionController.GestureSessionController();
      datasetManager := new DatasetManager.GestureDatasetManager();
      autoCaptureActive := false;
      isSensorConnected := false;
      currentFeatures := map[];
    }

    /** `_on_emg_data_ready`. */
    method OnEmgDataReady(raw: Dict, features: Dict, isConnected: bool, isoNow: string)
      modifies this, controller, datasetManager
      ensures Snap() == Capture.OnEmgDataReady(old(Snap()), raw, features, isConnected, isoNow)
    {
      isSensorConnected := isConnected;
      currentFeatures := features;
      if controller.state == Session.Recording && autoCaptureActive && |features| > 0 {
        var info := controller.GetCurrentGestureInfo();
        var gestureName := info.Name();
        var gestureId := AutoGestureId(gestureName);
        var clean := CleanFeatures(features, raw);
        if clean.Some? {
          var ok := datasetManager.AddSample(clean.value, gestureId, gestureName, info.Cycle(), None, isoNow);
          if ok {
            var _ := controller.IncrementSampleCount();
          }
        }
      }
    }

    /** `_start_auto_session`. */
    method StartAutoSession(duration: int, cycles: int, restTime: int, stamp: string, now: int)
      modifies this, controller, datasetManager
      ensures Snap() == Capture.StartAutoSession(old(Snap()), duration, cycles, restTime, stamp, now)
    {
      var ok := controller.ConfigureSession(AutoGestures, 3, duration, restTime, cycles);
      if !ok {
        return;
      }
      var _ := datasetManager.StartNewSession(stamp, now);
      var _ := controller.StartSession(now);
      autoCaptureActive := true;
    }

    /** `_stop_session`. */
    method StopSession()
      modifies this, controller
      ensures Snap() == StopAutoSession(old(Snap()))
    {
      var _ := controller.StopSession();
      autoCaptureActive := false;
    }

    /** `closeEvent`, without the offer to save. */
    method CloseEvent()
      modifies controller
      ensures Snap() == AutoCloseEvent(old(Snap()))
    {
      if controller.state != Session.Idle {
        var _ := controller.StopSession();
      }
    }
  }

  class MainGestureApp {
    const controller: SessionController.GestureSessionController
    const datasetManager: DatasetManager.GestureDatasetManager
    var isSensorConnected: bool
    var currentFeatures: Dict

    ghost function Snap(): MainApp
      reads this, controller, datasetManager
    {
      MainApp(controller.Snap(), datasetManager.Snap(), isSensorConnected, currentFeatures)
    }

    constructor()
      ensures Snap() == MainInit()
      ensures fresh(controller) && fresh(datasetManager)
    {
      controller := new SessionController.GestureSessionController();
      datasetManager := new DatasetManager.GestureDatasetManager();
      isSensorConnected := false;
      currentFeatures := map[];
    }

    /** `_on_frame_ready`, without the display. */
    method OnFrameReady(features: Dict, isConnected: bool, isoNow: string)
      modifies this, controller, datasetManager
      ensures Snap() == Capture.OnFrameReady(old(Snap()), features, isConnected, isoNow)
    {
      isSensorConnected := isConnected;
      currentFeatures := features;
      if controller.state == Session.Recording && |features| > 0 && isConnected {
        var info := controller.GetCurrentGestureInfo();
        var gestureName := info.Name();
        var gestureId := MainGestureId(gestureName);
        var _ := datasetManager.AddSample(features, gestureId, gestureName, info.Cycle(), None, isoNow);
        var _ := controller.IncrementSampleCount();
      }
    }

    /** `_start_session` with the check boxes `checked` ticked. */
    method StartSession(checked: set<string>, cycles: int, duration: int, restTime: int, stamp: string, now: int)
      modifies controller, datasetManager
      ensures Snap() == Capture.StartSession(old(Snap()), checked, cycles, duration, restTime, stamp, now)
    {
      if !isSensorConnected {
        return;
      }
      var selected := Selected(AvailableGestures, checked);
      if |selected| == 0 {
        return;
      }
      var ok := controller.ConfigureSession(selected, 1, duration, restTime, cycles);
      if !ok {
        return;
      }
      var _ := datasetManager.StartNewSession(stamp, now);
      var _ := controller.StartSession(now);
    }

    /** `_stop_session`; `confirmed` is the user's answer to the question it asks. */
    method StopSession(confirmed: bool)
      modifies controller
      ensures Snap() == MainStopSession(old(Snap()), confirmed)
    {
      if confirmed {
        var _ := controller.StopSession();
      }
    }

    /** `_pause_session`. */
    method PauseSession()
      requires controller.Valid()
      modifies controller
      ensures Snap() == Capture.PauseSession(old(Snap()))
    {
      if controller.state == Session.Paused {
        var _ := controller.ResumeSession();
      } else {
        var _ := controller.PauseSession();
      }
    }

    /** `closeEvent`, without the offer to save. */
    method CloseEvent()
      modifies controller
      ensures Snap() == Capture.CloseEvent(old(Snap()))
    {
      if controller.state != Session.Idle {
        var _ := controller.StopSession();
      }
    }
  }
}
